/** The store as it runs: a map of series updated in place, proved at every call to be
    the replay of the calls made so far. */
module StoreObject {
  import opened Basics
  import opened Telemetry
  import opened Store

  const DEFAULT_MAX_PER_WORKLOAD := 120
  const DEFAULT_MAX_AGE: Duration := 900 * SECOND

  /** Every series sits under its own key and respects the count bound. */
  ghost predicate WellKeyed(data: Data, max: nat) {
    forall k :: k in data ==> |data[k]| <= max && forall i :: 0 <= i < |data[k]| ==> data[k][i].Key() == k
  }

  lemma {:induction false} TrimKeeps(series: seq<Snapshot>, cutoff: Time, max: nat, key: string)
    requires forall i :: 0 <= i < |series| ==> series[i].Key() == key
    ensures |Trim(series, cutoff, max)| <= max
    ensures forall i :: 0 <= i < |Trim(series, cutoff, max)| ==> Trim(series, cutoff, max)[i].Key() == key
  {
    if series != [] && series[0].timestamp < cutoff {
      TrimKeeps(series[1..], cutoff, max, key);
    }
  }

  lemma {:induction false} ReplayWellKeyed(ops: seq<Op>, r: Retention)
    ensures WellKeyed(Replay(ops, r), r.maxPerWorkload)
  {
    if ops != [] {
      var before := Replay(ops[..|ops| - 1], r);
      ReplayWellKeyed(ops[..|ops| - 1], r);
      match Last(ops)
      case Add(snap, now) =>
        TrimKeeps(SeriesOf(before, snap.Key()) + [snap], now - r.maxAge, r.maxPerWorkload, snap.Key());
      case Prune(_) =>
    }
  }

  /** The newest sample of every workload that has one. */
  ghost function LatestOf(data: Data): set<Snapshot> {
    set k | k in data && data[k] != [] :: Last(data[k])
  }

  /** One sample per workload, so ordering by key is strict. */
  lemma LatestOrdered(data: Data, max: nat)
    requires WellKeyed(data, max)
    ensures StrictOrderOn(LatestOf(data), KeyLess)
  {
    forall a, b | a in LatestOf(data) && b in LatestOf(data)
      ensures a != b ==> KeyLess(a, b) || KeyLess(b, a)
      ensures !KeyLess(a, a)
    {
      StrLessTotal(a.Key(), b.Key());
      StrLessIrreflexive(a.Key());
    }
    forall a, b, c | a in LatestOf(data) && b in LatestOf(data) && c in LatestOf(data) && KeyLess(a, b) && KeyLess(b, c)
      ensures KeyLess(a, c)
    {
      StrLessTransitive(a.Key(), b.Key(), c.Key());
    }
  }

  lemma RemoveOne(data: Data, key: string)
    requires key in data
    ensures |data - {key}| == |data| - 1
  {
    assert (data - {key}).Keys == data.Keys - {key};
    assert |(data - {key}).Keys| == |data.Keys| - 1;
  }

  /** What Prune has left once it has looked at every key outside the given set. */
  ghost function Pruned(data: Data, cutoff: Time, todo: set<string>): Data {
    map k | k in data && (k in todo || !Stale(data[k], cutoff)) :: data[k]
  }

  lemma PruneDone(data: Data, now: Time, r: Retention)
    ensures Pruned(data, now - r.maxAge, data.Keys) == data
    ensures Pruned(data, now - r.maxAge, {}) == Step(data, Op.Prune(now), r)
  {
  }

  lemma ReplayOne(ops: seq<Op>, op: Op, r: Retention)
    ensures Replay(ops + [op], r) == Step(Replay(ops, r), op, r)
  {
    assert (ops + [op])[..|ops|] == ops;
  }

  lemma PruneOne(data: Data, cutoff: Time, todo: set<string>, key: string)
    requires key in todo && key in data
    ensures Pruned(data, cutoff, todo - {key}) ==
            if Stale(data[key], cutoff) then Pruned(data, cutoff, todo) - {key} else Pruned(data, cutoff, todo)
  {
  }

  ghost function Total(data: Data): nat {
    if data == map[] then 0
    else
      var k :| k in data;
      |data[k]| + Total(data - {k})
  }

  /** The total does not depend on the order the map is walked in. */
  lemma {:induction false} TotalRemove(data: Data, key: string)
    requires key in data
    ensures Total(data) == |data[key]| + Total(data - {key})
    decreases |data|
  {
    var k :| k in data && Total(data) == |data[k]| + Total(data - {k});
    if k != key {
      TotalRemove(data - {k}, key);
      TotalRemove(data - {key}, k);
      assert data - {k} - {key} == data - {key} - {k};
    }
  }

  /** Memory is bounded by the number of workloads, whatever is added. */
  lemma {:induction false} TotalBounded(data: Data, max: nat)
    requires WellKeyed(data, max)
    ensures Total(data) <= |data| * max
    decreases |data|
  {
    if data != map[] {
      var k :| k in data && Total(data) == |data[k]| + Total(data - {k});
      TotalBounded(data - {k}, max);
      RemoveOne(data, k);
      assert |data| * max == (|data| - 1) * max + max;
    }
  }

  /** Add's two trims, by age with a scan and then by count. */
  method TrimSeries(all: seq<Snapshot>, cutoff: Time, max: nat) returns (series: seq<Snapshot>)
    ensures series == Trim(all, cutoff, max)
  {
    var drop := 0;
    while drop < |all| && all[drop].timestamp < cutoff
      invariant 0 <= drop <= |all|
      invariant AfterExpired(all[drop..], cutoff) == AfterExpired(all, cutoff)
    {
      assert all[drop..][1..] == all[drop + 1..];
      drop := drop + 1;
    }
    series := all[drop..];
    if |series| > max {
      series := series[|series| - max..];
    }
  }

  /** Prune's loop: deletes the stale workloads one by one, counting them. */
  method PruneData(data: Data, now: Time, r: Retention) returns (kept: Data, removed: nat)
    ensures kept == Step(data, Op.Prune(now), r)
    ensures removed == |data| - |kept|
  {
    var cutoff, keys := now - r.maxAge, data.Keys;
    kept, removed := data, 0;
    PruneDone(data, now, r);
    while keys != {}
      invariant keys <= data.Keys && keys <= kept.Keys
      invariant kept == Pruned(data, cutoff, keys)
      invariant removed == |data| - |kept|
      decreases keys
    {
      var k :| k in keys;
      PruneOne(data, cutoff, keys, k);
      keys := keys - {k};
      if |data[k]| == 0 || data[k][|data[k]| - 1].timestamp < cutoff {
        RemoveOne(kept, k);
        kept := kept - {k};
        removed := removed + 1;
      }
    }
  }

  class SnapshotStore {
    var data: Data
    const retention: Retention
    ghost var ops: seq<Op>

    ghost predicate Valid()
      reads this
    {
      ValidRetention(retention) && data == Replay(ops, retention)
    }

    /** A non-positive bound leaves the default in place. */
    constructor (maxPerWorkload: int, maxAge: Duration)
      ensures Valid() && ops == []
      ensures retention.maxPerWorkload == (if maxPerWorkload > 0 then maxPerWorkload else 120)
      ensures retention.maxAge == (if maxAge > 0 then maxAge else 900_000_000_000)
    {
      retention := Retention(
        if maxPerWorkload > 0 then maxPerWorkload else DEFAULT_MAX_PER_WORKLOAD,
        if maxAge > 0 then maxAge else DEFAULT_MAX_AGE);
      data, ops := map[], [];
    }

    method Add(snap: Snapshot, now: Time)
      requires Valid()
      modifies this
      ensures Valid() && ops == old(ops) + [Op.Add(snap, now)]
      ensures data == Step(old(data), Op.Add(snap, now), retention)
    {
      var key := snap.Key();
      var series := TrimSeries((if key in data then data[key] else []) + [snap], now - retention.maxAge,
        retention.maxPerWorkload);
      ReplayOne(ops, Op.Add(snap, now), retention);
      data, ops := data[key := series], ops + [Op.Add(snap, now)];
    }

    /** The newest sample of each workload, once each, in key order; each is where its
        workload's history ends. */
    method Latest() returns (out: seq<Snapshot>)
      requires Valid()
      ensures StrictlySorted(out, KeyLess)
      ensures Elements(out) == LatestOf(data)
      ensures forall i :: 0 <= i < |out| ==>
        SeriesOf(data, out[i].Key()) != [] && Last(SeriesOf(data, out[i].Key())) == out[i]
    {
      ReplayWellKeyed(ops, retention);
      var keys, found := data.Keys, {};
      while keys != {}
        invariant keys <= data.Keys
        invariant found == set k | k in data && k !in keys && data[k] != [] :: Last(data[k])
        decreases keys
      {
        var k :| k in keys;
        keys := keys - {k};
        if data[k] != [] {
          found := found + {data[k][|data[k]| - 1]};
        }
      }
      assert found == LatestOf(data);
      LatestOrdered(data, retention.maxPerWorkload);
      out := SortSet(found, KeyLess);
      forall i | 0 <= i < |out|
        ensures SeriesOf(data, out[i].Key()) != [] && Last(SeriesOf(data, out[i].Key())) == out[i]
      {
        assert out[i] in Elements(out);
        var k :| k in data && data[k] != [] && Last(data[k]) == out[i];
        assert data[k][|data[k]| - 1].Key() == k;
      }
    }

    method History(key: string) returns (series: seq<Snapshot>)
      requires Valid()
      ensures series == SeriesOf(data, key)
    {
      series := if key in data then data[key] else [];
    }

    /** Drops the workloads gone stale and reports how many. */
    method Prune(now: Time) returns (removed: nat)
      requires Valid()
      modifies this
      ensures Valid() && ops == old(ops) + [Op.Prune(now)]
      ensures data == Step(old(data), Op.Prune(now), retention)
      ensures removed == |old(data)| - |data|
    {
      var kept;
      kept, removed := PruneData(data, now, retention);
      ReplayOne(ops, Op.Prune(now), retention);
      data, ops := kept, ops + [Op.Prune(now)];
    }

    /** How many samples are held; never more than the bound for each workload. */
    method Size() returns (n: nat)
      requires Valid()
      ensures n == Total(data) <= |data| * retention.maxPerWorkload
    {
      n := 0;
      var rest := data;
      while rest != map[]
        invariant n + Total(rest) == Total(data)
        invariant forall k :: k in rest ==> k in data && rest[k] == data[k]
        decreases |rest|
      {
        var k :| k in rest;
        TotalRemove(rest, k);
        n := n + |data[k]|;
        rest := rest - {k};
      }
      ReplayWellKeyed(ops, retention);
      TotalBounded(data, retention.maxPerWorkload);
    }
  }
}
