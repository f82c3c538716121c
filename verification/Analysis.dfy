/** Analysis of every workload (recommender.go, Analyze): one canonical output, every
    finding justified, none lost, no identity shared. */
module Analysis {
  import opened Basics
  import opened Telemetry
  import opened Rules
  import opened RuleLaws
  import opened EvidenceLaws
  import opened Suppression
  import opened Engine
  import opened Analyze

  /** Supplies the retained history for a workload key. */
  type WindowFunc = string -> seq<Snapshot>

  datatype Input = Input(window: Option<WindowFunc>, t: Thresholds, now: Time) {
    /** A workload without history is judged on its newest snapshot alone. */
    function HistoryOf(s: Snapshot): seq<Snapshot> {
      if window.None? || window.value(s.Key()) == [] then [s] else window.value(s.Key())
    }

    function For(s: Snapshot): Eval {
      Eval(s, HistoryOf(s), t, now)
    }
  }

  ghost function ReportFor(s: Snapshot, given: Input): seq<Recommendation> {
    BuiltInCoded(given.For(s));
    WorkloadReport(DEFAULT_RULES, BuiltIn(given.For(s)), Supersedes)
  }

  /** The reports of the workloads one after the other. */
  ghost function Reports(byKey: seq<Snapshot>, given: Input): seq<Recommendation> {
    if byKey == [] then [] else Reports(byKey[..|byKey| - 1], given) + ReportFor(Last(byKey), given)
  }

  /** out is the reports of the given workloads in some order by key. */
  ghost predicate IsAnalysis(out: seq<Recommendation>, latest: seq<Snapshot>, given: Input) {
    exists byKey :: multiset(byKey) == multiset(latest) && Ordered(byKey, KeyLess) && out == Reports(byKey, given)
  }

  lemma NotKeyLessTransitive(a: Snapshot, b: Snapshot, c: Snapshot)
    requires !KeyLess(b, a) && !KeyLess(c, b)
    ensures !KeyLess(c, a)
  {
    StrLessTotal(b.Key(), a.Key());
    if KeyLess(c, a) && KeyLess(a, b) {
      StrLessTransitive(c.Key(), a.Key(), b.Key());
    }
  }

  lemma KeyLessAsymmetric(a: Snapshot, b: Snapshot)
    requires KeyLess(a, b)
    ensures !KeyLess(b, a)
  {
    if KeyLess(b, a) {
      StrLessTransitive(a.Key(), b.Key(), a.Key());
      StrLessIrreflexive(a.Key());
    }
  }

  lemma KeyOrder()
    ensures WeakOrder(KeyLess)
  {
    forall a, b | KeyLess(a, b) ensures !KeyLess(b, a) {
      KeyLessAsymmetric(a, b);
    }
    forall a, b, c | !KeyLess(b, a) && !KeyLess(c, b) ensures !KeyLess(c, a) {
      NotKeyLessTransitive(a, b, c);
    }
  }

  method AnalyzeAll(latest: seq<Snapshot>, given: Input) returns (out: seq<Recommendation>)
    ensures IsAnalysis(out, latest, given)
  {
    KeyOrder();
    var byKey := SortBy(latest, KeyLess);
    out := [];
    for i := 0 to |byKey|
      invariant out == Reports(byKey[..i], given)
    {
      var snap := byKey[i];
      var hist := if given.window.Some? then given.window.value(snap.Key()) else [];
      if |hist| == 0 {
        hist := [snap];
      }
      var found := AnalyzeWorkload(snap, hist, given.t, given.now);
      assert byKey[..i + 1][..i] == byKey[..i] && Last(byKey[..i + 1]) == snap;
      out := out + found;
    }
    assert byKey[..|byKey|] == byKey;
  }

  // ── What one reported finding is ────────

  function KeyOf(r: Recommendation): string {
    WorkloadKey(r.namespace, r.workloadName)
  }

  /** Every finding reported for a workload is what one of the rules found there. */
  lemma ReportedBy(s: Snapshot, given: Input, r: Recommendation) returns (code: Code)
    requires r in ReportFor(s, given)
    ensures code in Reported(Fired(DEFAULT_RULES, BuiltIn(given.For(s))), Edge(Supersedes))
    ensures OutcomeOf(code, given.For(s)) == Some(r)
  {
    var found := BuiltIn(given.For(s));
    BuiltInCoded(given.For(s));
    assert r in Elements(WorkloadReport(DEFAULT_RULES, found, Supersedes));
    code :| code in Unsuppressed(DEFAULT_RULES, found, Supersedes) && found(code).value == r;
    assert found(code) == OutcomeOf(code, given.For(s));
  }

  lemma OutcomeIdentity(code: Code, e: Eval, r: Recommendation)
    requires OutcomeOf(code, e) == Some(r)
    ensures r.code == Text(code) && KeyOf(r) == e.latest.Key() && r.id == r.code + (":" + KeyOf(r))
    ensures Fires(code, e) && r.evidence == Evaluate(code, e).value.evidence
  {
  }

  lemma {:induction false} InReports(byKey: seq<Snapshot>, given: Input, r: Recommendation) returns (s: Snapshot)
    requires r in Reports(byKey, given)
    ensures s in byKey && r in ReportFor(s, given)
  {
    if r in ReportFor(Last(byKey), given) {
      s := Last(byKey);
    } else {
      s := InReports(byKey[..|byKey| - 1], given, r);
    }
  }

  lemma {:induction false} ReportsContain(byKey: seq<Snapshot>, given: Input, s: Snapshot, r: Recommendation)
    requires s in byKey && r in ReportFor(s, given)
    ensures r in Reports(byKey, given)
  {
    if s != Last(byKey) {
      ReportsContain(byKey[..|byKey| - 1], given, s, r);
    }
  }

  lemma SameMembers(byKey: seq<Snapshot>, latest: seq<Snapshot>)
    requires multiset(byKey) == multiset(latest)
    ensures forall s :: s in byKey <==> s in latest
  {
    assert forall s :: s in byKey <==> s in multiset(byKey);
    assert forall s :: s in latest <==> s in multiset(latest);
  }

  // ── Canonical output ────────

  /** No two of the given snapshots share a workload key. */
  ghost predicate DistinctKeys(latest: multiset<Snapshot>) {
    forall a, b :: a in latest && b in latest && a.Key() == b.Key() ==> a == b && latest[a] == 1
  }

  lemma CountedTwice<T>(xs: seq<T>, i: nat, j: nat)
    requires i < j < |xs| && xs[i] == xs[j]
    ensures multiset(xs)[xs[i]] >= 2
  {
    assert xs == xs[..j] + xs[j..];
    assert xs[i] in xs[..j] && xs[j] in xs[j..];
  }

  lemma DistinctIsStrict(byKey: seq<Snapshot>)
    requires Ordered(byKey, KeyLess) && DistinctKeys(multiset(byKey))
    ensures StrictlySorted(byKey, KeyLess)
  {
    forall i, j | 0 <= i < j < |byKey| ensures KeyLess(byKey[i], byKey[j]) {
      var a, b := byKey[i], byKey[j];
      StrLessTotal(a.Key(), b.Key());
      if a.Key() == b.Key() {
        assert a in multiset(byKey) && b in multiset(byKey);
        CountedTwice(byKey, i, j);
      }
    }
  }

  lemma KeysStrict(byKey: seq<Snapshot>)
    requires DistinctKeys(multiset(byKey))
    ensures StrictOrderOn(Elements(byKey), KeyLess)
  {
    forall a, b | a in Elements(byKey) && b in Elements(byKey)
      ensures a != b ==> KeyLess(a, b) || KeyLess(b, a)
      ensures !KeyLess(a, a)
    {
      assert a in multiset(byKey) && b in multiset(byKey);
      StrLessTotal(a.Key(), b.Key());
      StrLessIrreflexive(a.Key());
    }
    forall a, b, c | KeyLess(a, b) && KeyLess(b, c) ensures KeyLess(a, c) {
      StrLessTransitive(a.Key(), b.Key(), c.Key());
    }
  }

  /** Analysis is canonical: for workloads with distinct keys the output does not depend
      on the order the snapshots come in or on any order a map is read in. */
  lemma Canonical(out1: seq<Recommendation>, latest1: seq<Snapshot>, out2: seq<Recommendation>,
                  latest2: seq<Snapshot>, given: Input)
    requires multiset(latest1) == multiset(latest2) && DistinctKeys(multiset(latest1))
    requires IsAnalysis(out1, latest1, given) && IsAnalysis(out2, latest2, given)
    ensures out1 == out2
  {
    var byKey1 :| multiset(byKey1) == multiset(latest1) && Ordered(byKey1, KeyLess) && out1 == Reports(byKey1, given);
    var byKey2 :| multiset(byKey2) == multiset(latest2) && Ordered(byKey2, KeyLess) && out2 == Reports(byKey2, given);
    DistinctIsStrict(byKey1);
    DistinctIsStrict(byKey2);
    KeysStrict(byKey1);
    SameMembers(byKey1, byKey2);
    assert Elements(byKey1) == Elements(byKey2);
    SortedUnique(byKey1, byKey2, KeyLess);
  }

  /** By workload key, then severity, then code. */
  predicate ReportLess(a: Recommendation, b: Recommendation) {
    StrLess(KeyOf(a), KeyOf(b)) || (KeyOf(a) == KeyOf(b) && FindingLess(a, b))
  }

  lemma ReportKey(s: Snapshot, given: Input, r: Recommendation)
    requires r in ReportFor(s, given)
    ensures KeyOf(r) == s.Key()
  {
    var code := ReportedBy(s, given, r);
    OutcomeIdentity(code, given.For(s), r);
  }

  lemma ReportOrdered(s: Snapshot, given: Input)
    ensures StrictlySorted(ReportFor(s, given), ReportLess)
  {
    var out := ReportFor(s, given);
    forall i, j | 0 <= i < j < |out| ensures ReportLess(out[i], out[j]) {
      ReportKey(s, given, out[i]);
      ReportKey(s, given, out[j]);
    }
  }

  lemma SortedConcat<T(!new)>(xs: seq<T>, ys: seq<T>, less: (T, T) -> bool)
    requires StrictlySorted(xs, less) && StrictlySorted(ys, less)
    requires forall x, y :: x in xs && y in ys ==> less(x, y)
    ensures StrictlySorted(xs + ys, less)
  {
  }

  lemma {:induction false} ReportsOrdered(byKey: seq<Snapshot>, given: Input)
    requires StrictlySorted(byKey, KeyLess)
    ensures StrictlySorted(Reports(byKey, given), ReportLess)
  {
    if byKey != [] {
      var before, s := byKey[..|byKey| - 1], Last(byKey);
      ReportsOrdered(before, given);
      ReportOrdered(s, given);
      forall x, y | x in Reports(before, given) && y in ReportFor(s, given) ensures ReportLess(x, y) {
        var earlier := InReports(before, given, x);
        ReportKey(earlier, given, x);
        ReportKey(s, given, y);
        assert KeyLess(earlier, s);
      }
      SortedConcat(Reports(before, given), ReportFor(s, given), ReportLess);
    }
  }

  /** The output is strictly ordered by key, severity rank and code. */
  lemma AnalysisOrdered(out: seq<Recommendation>, latest: seq<Snapshot>, given: Input)
    requires IsAnalysis(out, latest, given) && DistinctKeys(multiset(latest))
    ensures StrictlySorted(out, ReportLess)
  {
    var byKey :| multiset(byKey) == multiset(latest) && Ordered(byKey, KeyLess) && out == Reports(byKey, given);
    DistinctIsStrict(byKey);
    ReportsOrdered(byKey, given);
  }

  // ── Identity ────────

  /** A code and a key can be read back from the identifier they form. */
  lemma SplitAtColon(a: string, aKey: string, b: string, bKey: string)
    requires forall i :: 0 <= i < |a| ==> a[i] != ':'
    requires forall i :: 0 <= i < |b| ==> b[i] != ':'
    requires a + (":" + aKey) == b + (":" + bKey)
    ensures a == b && aKey == bKey
  {
    var whole := a + (":" + aKey);
    assert whole[|a|] == ':' && whole[|b|] == ':';
    assert a == whole[..|a|] && b == whole[..|b|];
    assert aKey == whole[|a| + 1..] && bKey == whole[|b| + 1..];
  }

  /** Findings have the same identifier only when code and workload agree. */
  lemma IdentityInjective(s: Snapshot, r: Recommendation, s2: Snapshot, r2: Recommendation, given: Input)
    requires r in ReportFor(s, given) && r2 in ReportFor(s2, given)
    requires r.id == r2.id
    ensures r.code == r2.code && KeyOf(r) == KeyOf(r2)
  {
    var c := ReportedBy(s, given, r);
    var d := ReportedBy(s2, given, r2);
    OutcomeIdentity(c, given.For(s), r);
    OutcomeIdentity(d, given.For(s2), r2);
    NoColon(c);
    NoColon(d);
    SplitAtColon(r.code, KeyOf(r), r2.code, KeyOf(r2));
  }

  /** All identifiers in one output are distinct, so clients can deduplicate on them. */
  lemma IdentitiesDistinct(out: seq<Recommendation>, latest: seq<Snapshot>, given: Input)
    requires IsAnalysis(out, latest, given) && DistinctKeys(multiset(latest))
    ensures forall i, j :: 0 <= i < j < |out| ==> out[i].id != out[j].id
  {
    AnalysisOrdered(out, latest, given);
    var byKey :| multiset(byKey) == multiset(latest) && Ordered(byKey, KeyLess) && out == Reports(byKey, given);
    forall i, j | 0 <= i < j < |out| ensures out[i].id != out[j].id {
      var a := InReports(byKey, given, out[i]);
      var b := InReports(byKey, given, out[j]);
      ReportLessIrreflexive(out[i]);
      if out[i].id == out[j].id {
        IdentityInjective(a, out[i], b, out[j], given);
        ReportKey(a, given, out[i]);
        ReportKey(b, given, out[j]);
        assert a in multiset(byKey) && b in multiset(byKey);
        OneFindingPerCode(a, given, out[i], out[j]);
      }
    }
  }

  lemma ReportLessIrreflexive(r: Recommendation)
    ensures !ReportLess(r, r)
  {
    StrLessIrreflexive(KeyOf(r));
    StrLessIrreflexive(r.code);
  }

  lemma OneFindingPerCode(s: Snapshot, given: Input, r: Recommendation, r2: Recommendation)
    requires r in ReportFor(s, given) && r2 in ReportFor(s, given) && r.code == r2.code
    ensures r == r2
  {
    var c := ReportedBy(s, given, r);
    var d := ReportedBy(s, given, r2);
    OutcomeIdentity(c, given.For(s), r);
    OutcomeIdentity(d, given.For(s), r2);
    TextInjective(c, d);
  }

  // ── Justification and completeness ────────

  /** Everything reported is justified by its own evidence, when each workload's newest
      snapshot is in the tail of the history it is judged on. */
  lemma AnalysisJustified(out: seq<Recommendation>, latest: seq<Snapshot>, given: Input, r: Recommendation)
    requires IsAnalysis(out, latest, given) && r in out
    requires forall s :: s in latest ==> LatestInTail(given.For(s))
    ensures AllHold(r.evidence)
  {
    var byKey :| multiset(byKey) == multiset(latest) && Ordered(byKey, KeyLess) && out == Reports(byKey, given);
    SameMembers(byKey, latest);
    var s := InReports(byKey, given, r);
    var code := ReportedBy(s, given, r);
    OutcomeIdentity(code, given.For(s), r);
    JustifiedByEvidence(code, given.For(s));
  }

  /** The codes an output reports for a workload. */
  ghost predicate ReportsCode(out: seq<Recommendation>, s: Snapshot, code: Code, given: Input) {
    OutcomeOf(code, given.For(s)).Some? && OutcomeOf(code, given.For(s)).value in out
  }

  lemma UnsuppressedIsReported(s: Snapshot, given: Input, code: Code)
    requires code in Reported(Fired(DEFAULT_RULES, BuiltIn(given.For(s))), Edge(Supersedes))
    ensures OutcomeOf(code, given.For(s)).Some? && OutcomeOf(code, given.For(s)).value in ReportFor(s, given)
  {
    var found := BuiltIn(given.For(s));
    BuiltInCoded(given.For(s));
    var all := Unsuppressed(DEFAULT_RULES, found, Supersedes);
    assert code in all && all[code] == found(code).value == OutcomeOf(code, given.For(s)).value;
    assert all[code] in Elements(WorkloadReport(DEFAULT_RULES, found, Supersedes));
  }

  /** No problem is lost: whatever fires on a workload, a chain of superseding rules leads
      to it from a finding in the output. */
  lemma NothingUnreported(out: seq<Recommendation>, latest: seq<Snapshot>, given: Input, s: Snapshot, code: Code)
    returns (path: seq<Code>)
    requires IsAnalysis(out, latest, given) && s in latest
    requires code.AppliesTo(s.runtime) && Fires(code, given.For(s))
    ensures Chain(path, Edge(Supersedes)) && Last(path) == code
    ensures ReportsCode(out, s, path[0], given)
  {
    var byKey :| multiset(byKey) == multiset(latest) && Ordered(byKey, KeyLess) && out == Reports(byKey, given);
    SameMembers(byKey, latest);
    var e := given.For(s);
    EveryRuleIsDefault(code);
    FiresIsOutcome(code, e);
    BuiltInAcyclic();
    NoProblemLost(DEFAULT_RULES, BuiltIn(e), Supersedes, code);
    var fired := Fired(DEFAULT_RULES, BuiltIn(e));
    path :| Chain(path, Edge(Supersedes)) && Elements(path) <= fired
      && path[0] in Reported(fired, Edge(Supersedes)) && Last(path) == code;
    UnsuppressedIsReported(s, given, path[0]);
    ReportsContain(byKey, given, s, OutcomeOf(path[0], e).value);
  }

  /** No finding in the output supersedes another one about the same workload. */
  lemma NoneSupersedesAnother(out: seq<Recommendation>, latest: seq<Snapshot>, given: Input,
                              r1: Recommendation, r2: Recommendation, c1: Code, c2: Code)
    requires IsAnalysis(out, latest, given) && DistinctKeys(multiset(latest))
    requires r1 in out && r2 in out && KeyOf(r1) == KeyOf(r2)
    requires r1.code == Text(c1) && r2.code == Text(c2)
    ensures c2 !in Supersedes(c1)
  {
    var byKey :| multiset(byKey) == multiset(latest) && Ordered(byKey, KeyLess) && out == Reports(byKey, given);
    var s1 := InReports(byKey, given, r1);
    var s2 := InReports(byKey, given, r2);
    ReportKey(s1, given, r1);
    ReportKey(s2, given, r2);
    assert s1 in multiset(byKey) && s2 in multiset(byKey);
    ReportedCode(s1, given, r1, c1);
    ReportedCode(s1, given, r2, c2);
    ReportedUnrelated(Fired(DEFAULT_RULES, BuiltIn(given.For(s1))), Edge(Supersedes), c1, c2);
  }

  lemma ReportedCode(s: Snapshot, given: Input, r: Recommendation, code: Code)
    requires r in ReportFor(s, given) && r.code == Text(code)
    ensures code in Reported(Fired(DEFAULT_RULES, BuiltIn(given.For(s))), Edge(Supersedes))
  {
    var c := ReportedBy(s, given, r);
    OutcomeIdentity(c, given.For(s), r);
    TextInjective(c, code);
  }

  lemma FiresIsOutcome(code: Code, e: Eval)
    ensures code.AppliesTo(e.latest.runtime) && Fires(code, e) ==> BuiltIn(e)(code).Some?
  {
  }
}
