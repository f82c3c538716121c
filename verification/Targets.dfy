/** Which scrape targets may run side by side: the duplicate checks of the configuration
    (internal/config/config.go) and of the collector (internal/collector/collector.go), and
    what they keep apart. */
module Targets {
  import opened Basics
  import opened Telemetry
  import opened ApplyRates

  datatype Target = Target(namespace: string, workloadName: string) {
    /** The key everything downstream uses. */
    function Key(): string {
      WorkloadKey(namespace, workloadName)
    }

    /** The key the configuration compares. */
    function ConfigKey(): string {
      namespace + ("/" + workloadName)
    }
  }

  ghost predicate Named(targets: seq<Target>) {
    forall i :: 0 <= i < |targets| ==> targets[i].workloadName != ""
  }

  ghost predicate DistinctBy(targets: seq<Target>, key: Target -> string) {
    forall i, j :: 0 <= i < j < |targets| ==> key(targets[i]) != key(targets[j])
  }

  function ByKey(): Target -> string {
    (t: Target) => t.Key()
  }

  function ByConfigKey(): Target -> string {
    (t: Target) => t.ConfigKey()
  }

  /** Both checks: a name for every target, and no key twice. */
  method Check(targets: seq<Target>, key: Target -> string) returns (ok: bool)
    ensures ok <==> Named(targets) && DistinctBy(targets, key)
  {
    var seen: set<string> := {};
    for i := 0 to |targets|
      invariant Named(targets[..i]) && DistinctBy(targets[..i], key)
      invariant seen == set t | t in targets[..i] :: key(t)
    {
      var t := targets[i];
      if t.workloadName == "" {
        return false;
      }
      if key(t) in seen {
        var u :| u in targets[..i] && key(u) == key(t);
        return false;
      }
      assert targets[..i + 1] == targets[..i] + [t];
      seen := seen + {key(t)};
    }
    assert targets[..|targets|] == targets;
    return true;
  }

  /** A target without a namespace named like another one's key. */
  predicate Collide(a: Target, b: Target) {
    a.namespace == "" && b.namespace != "" && a.workloadName == b.ConfigKey()
  }

  lemma KeyIsConfigKey(t: Target)
    ensures t.namespace != "" ==> t.Key() == t.ConfigKey()
    ensures t.namespace == "" ==> t.ConfigKey() == "/" + t.workloadName
  {
    if t.namespace != "" {
      assert t.namespace + "/" + t.workloadName == t.namespace + ("/" + t.workloadName);
    }
  }

  lemma SlashInjective(m: string, n: string)
    requires "/" + m != "/" + n
    ensures m != n
  {
  }

  /** Two targets the configuration tells apart have the same key exactly when they
      collide. */
  lemma KeysCollideExactly(a: Target, b: Target)
    requires a.ConfigKey() != b.ConfigKey()
    ensures a.Key() == b.Key() <==> Collide(a, b) || Collide(b, a)
  {
    KeyIsConfigKey(a);
    KeyIsConfigKey(b);
    if a.namespace == "" && b.namespace == "" {
      SlashInjective(a.workloadName, b.workloadName);
    }
  }

  /** So a configuration that passes its own check is refused by the collector exactly
      when two of its targets collide. */
  lemma RefusedExactly(targets: seq<Target>)
    requires Named(targets) && DistinctBy(targets, ByConfigKey())
    ensures !DistinctBy(targets, ByKey()) <==>
            exists i, j :: 0 <= i < |targets| && 0 <= j < |targets| && Collide(targets[i], targets[j])
  {
    forall i, j | 0 <= i < j < |targets|
      ensures ByKey()(targets[i]) == ByKey()(targets[j]) <==>
              Collide(targets[i], targets[j]) || Collide(targets[j], targets[i])
    {
      assert ByConfigKey()(targets[i]) != ByConfigKey()(targets[j]);
      KeysCollideExactly(targets[i], targets[j]);
    }
  }

  /** Two such targets: the configuration takes them, the collector does not. */
  lemma ConfigTakesCollision() returns (targets: seq<Target>)
    ensures Named(targets) && DistinctBy(targets, ByConfigKey()) && !DistinctBy(targets, ByKey())
  {
    var a, b := Target("", "a/b"), Target("a", "b");
    targets := [a, b];
    assert b.ConfigKey() == "a/b" && a.ConfigKey() == "/a/b";
    assert |a.ConfigKey()| == 4 && |b.ConfigKey()| == 3;
    KeysCollideExactly(a, b);
    assert ByKey()(targets[0]) == ByKey()(targets[1]);
  }

  /** Among targets the collector has accepted, no counter of one shares a tracker entry
      with a counter of another, or with another of its own. */
  lemma TrackerApart(targets: seq<Target>, i: nat, j: nat, c: Counter, d: Counter)
    requires DistinctBy(targets, ByKey()) && i < |targets| && j < |targets|
    ensures TrackerKey(targets[i].Key(), c) == TrackerKey(targets[j].Key(), d) <==> i == j && c == d
  {
    if TrackerKey(targets[i].Key(), c) == TrackerKey(targets[j].Key(), d) {
      TrackerKeyInjective(targets[i].Key(), c, targets[j].Key(), d);
      assert ByKey()(targets[i]) == ByKey()(targets[j]);
    }
  }

  /** The snapshot a scrape of the target writes. */
  predicate Of(s: Snapshot, t: Target) {
    s.namespace == t.namespace && s.workloadName == t.workloadName
  }

  /** Targets the configuration tells apart share a store series, and every tracker entry,
      exactly when they collide. */
  lemma SharedExactly(a: Target, b: Target, s: Snapshot, u: Snapshot, c: Counter)
    requires a.ConfigKey() != b.ConfigKey() && Of(s, a) && Of(u, b)
    ensures s.Key() == u.Key() <==> Collide(a, b) || Collide(b, a)
    ensures TrackerKey(a.Key(), c) == TrackerKey(b.Key(), c) <==> Collide(a, b) || Collide(b, a)
  {
    KeysCollideExactly(a, b);
    if TrackerKey(a.Key(), c) == TrackerKey(b.Key(), c) {
      TrackerKeyInjective(a.Key(), c, b.Key(), c);
    }
  }
}
