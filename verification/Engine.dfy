/** The engine's work on one workload (recommender.go, analyzeWorkload), for any set of
    rules: run them, drop what is superseded, sort what is left. */
module Engine {
  import opened Basics
  import opened Telemetry
  import opened Suppression

  /** Within a workload: most severe first, then by code. */
  predicate FindingLess(a: Recommendation, b: Recommendation) {
    a.severity.Rank() < b.severity.Rank() ||
    (a.severity.Rank() == b.severity.Rank() && StrLess(a.code, b.code))
  }

  lemma FindingLessTransitive(a: Recommendation, b: Recommendation, c: Recommendation)
    requires FindingLess(a, b) && FindingLess(b, c)
    ensures FindingLess(a, c)
  {
    if StrLess(a.code, b.code) && StrLess(b.code, c.code) {
      StrLessTransitive(a.code, b.code, c.code);
    }
  }

  ghost predicate DistinctCodes(found: set<Recommendation>) {
    forall a, b :: a in found && b in found && a.code == b.code ==> a == b
  }

  /** Findings that differ in code are ordered between any two. */
  lemma DistinctCodesOrdered(found: set<Recommendation>)
    requires DistinctCodes(found)
    ensures StrictOrderOn(found, FindingLess)
  {
    forall a, b | a in found && b in found
      ensures a != b ==> FindingLess(a, b) || FindingLess(b, a)
      ensures !FindingLess(a, a)
    {
      StrLessTotal(a.code, b.code);
      StrLessIrreflexive(a.code);
    }
    forall a, b, c | a in found && b in found && c in found && FindingLess(a, b) && FindingLess(b, c)
      ensures FindingLess(a, c)
    {
      FindingLessTransitive(a, b, c);
    }
  }

  /** What each rule reports for one workload, if it applies and fires. */
  type Outcome<!C> = C -> Option<Recommendation>

  /** Different rules report under different codes. */
  ghost predicate Coded<C(!new)>(outcome: Outcome<C>) {
    forall c, d :: outcome(c).Some? && outcome(d).Some? && outcome(c).value.code == outcome(d).value.code ==> c == d
  }

  function Edge<C(!new)>(supersedes: C -> set<C>): Relation<C> {
    (a, b) => b in supersedes(a)
  }

  ghost function Fired<C(!new)>(rules: set<C>, outcome: Outcome<C>): set<C> {
    set c | c in rules && outcome(c).Some?
  }

  /** The findings that survive suppression, by rule. */
  ghost function Unsuppressed<C(!new)>(rules: set<C>, outcome: Outcome<C>,
                                supersedes: C -> set<C>): map<C, Recommendation> {
    map c | c in Reported(Fired(rules, outcome), Edge(supersedes)) :: outcome(c).value
  }

  lemma FindingsOrdered<C(!new)>(rules: set<C>, outcome: Outcome<C>, supersedes: C -> set<C>)
    requires Coded(outcome)
    ensures StrictOrderOn(Unsuppressed(rules, outcome, supersedes).Values, FindingLess)
  {
    DistinctCodesOrdered(Unsuppressed(rules, outcome, supersedes).Values);
  }

  /** What the analysis of one workload returns: the surviving findings in order. */
  ghost function WorkloadReport<C(!new)>(rules: set<C>, outcome: Outcome<C>,
                                  supersedes: C -> set<C>): (out: seq<Recommendation>)
    requires Coded(outcome)
    ensures StrictlySorted(out, FindingLess)
    ensures Elements(out) == Unsuppressed(rules, outcome, supersedes).Values
  {
    FindingsOrdered(rules, outcome, supersedes);
    var found := Unsuppressed(rules, outcome, supersedes).Values;
    Sortable(found, FindingLess);
    var out :| StrictlySorted(out, FindingLess) && Elements(out) == found;
    out
  }

  /** What has fired, and what that supersedes, after running the given rules. */
  ghost predicate Ran<C(!new)>(
    done: set<C>, fired: map<C, Recommendation>, superseded: set<C>, outcome: Outcome<C>, supersedes: C -> set<C>)
  {
    && fired.Keys == Fired(done, outcome)
    && (forall c :: c in fired ==> fired[c] == outcome(c).value)
    && (forall b :: b in superseded <==> exists a :: a in fired && b in supersedes(a))
  }

  method RunRules<C(==, !new)>(rules: seq<C>, outcome: Outcome<C>, supersedes: C -> set<C>)
    returns (fired: map<C, Recommendation>, superseded: set<C>)
    ensures Ran(Elements(rules), fired, superseded, outcome, supersedes)
  {
    fired, superseded := map[], {};
    for i := 0 to |rules|
      invariant Ran(Elements(rules[..i]), fired, superseded, outcome, supersedes)
    {
      var c, found := rules[i], outcome(rules[i]);
      ghost var before := fired;
      assert rules[..i + 1] == rules[..i] + [c];
      assert Elements(rules[..i + 1]) == Elements(rules[..i]) + {c};
      if found.Some? {
        fired := fired[c := found.value];
        superseded := superseded + supersedes(c);
        assert forall a :: a in fired <==> a == c || a in before;
      }
    }
    assert rules[..|rules|] == rules;
  }

  method DropSuperseded<C(==, !new)>(fired: map<C, Recommendation>, superseded: set<C>)
    returns (kept: set<Recommendation>)
    ensures kept == set c | c in fired && c !in superseded :: fired[c]
  {
    kept := {};
    var codes := fired.Keys;
    while codes != {}
      invariant codes <= fired.Keys
      invariant kept == set c | c in fired && c !in codes && c !in superseded :: fired[c]
      decreases codes
    {
      var c :| c in codes;
      codes := codes - {c};
      if c !in superseded {
        kept := kept + {fired[c]};
      }
    }
  }

  lemma KeptAreFindings<C(!new)>(rules: set<C>, fired: map<C, Recommendation>, superseded: set<C>,
                          outcome: Outcome<C>, supersedes: C -> set<C>)
    requires Ran(rules, fired, superseded, outcome, supersedes)
    ensures Unsuppressed(rules, outcome, supersedes).Values == set c | c in fired && c !in superseded :: fired[c]
  {
    var all := Unsuppressed(rules, outcome, supersedes);
    forall c ensures c in all <==> c in fired && c !in superseded {
    }
    assert forall c :: c in all ==> all[c] == fired[c];
  }

  /** The rules run in the order given; the map of what fired is read in any order.
      Neither shows in the result. */
  method Run<C(==, !new)>(rules: seq<C>, outcome: Outcome<C>, supersedes: C -> set<C>)
    returns (out: seq<Recommendation>)
    requires Coded(outcome)
    ensures out == WorkloadReport(Elements(rules), outcome, supersedes)
  {
    var fired, superseded := RunRules(rules, outcome, supersedes);
    var kept := DropSuperseded(fired, superseded);
    KeptAreFindings(Elements(rules), fired, superseded, outcome, supersedes);
    FindingsOrdered(Elements(rules), outcome, supersedes);
    out := SortSet(kept, FindingLess);
    SortedUnique(out, WorkloadReport(Elements(rules), outcome, supersedes), FindingLess);
  }

  /** With an acyclic relation, if anything fired something is reported. */
  lemma SomethingToReport<C(!new)>(rules: set<C>, outcome: Outcome<C>, supersedes: C -> set<C>)
    requires Coded(outcome) && Acyclic(Edge(supersedes)) && Fired(rules, outcome) != {}
    ensures WorkloadReport(rules, outcome, supersedes) != []
  {
    SomethingReported(Fired(rules, outcome), Edge(supersedes));
    var c :| c in Reported(Fired(rules, outcome), Edge(supersedes));
    var all := Unsuppressed(rules, outcome, supersedes);
    assert c in all;
    var out := WorkloadReport(rules, outcome, supersedes);
    assert all[c] in Elements(out);
    NoElements(out);
  }

  /** Suppression loses no problem: with an acyclic relation whatever fired is reported,
      or explained by a chain of superseding rules from something reported. */
  lemma NoProblemLost<C(!new)>(rules: set<C>, outcome: Outcome<C>, supersedes: C -> set<C>, c: C)
    requires Acyclic(Edge(supersedes)) && c in rules && outcome(c).Some?
    ensures Explained(c, Fired(rules, outcome), Edge(supersedes))
  {
    AcyclicLosesNothing(Fired(rules, outcome), Edge(supersedes));
  }
}
