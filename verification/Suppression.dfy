/** Suppression (recommender.go, analyzeWorkload): a fired rule silences the rules it
    supersedes. Stated for any supersedes relation over any codes. */
module Suppression {
  import opened Basics

  type Relation<!C> = (C, C) -> bool

  /** The fired codes no fired code supersedes. */
  ghost function Reported<C(!new)>(fired: set<C>, sup: Relation<C>): set<C> {
    set b | b in fired && forall a :: a in fired ==> !sup(a, b)
  }

  /** Each code on the path supersedes the next. */
  ghost predicate Chain<C(!new)>(path: seq<C>, sup: Relation<C>) {
    path != [] && forall i :: 0 <= i < |path| - 1 ==> sup(path[i], path[i + 1])
  }

  ghost predicate Acyclic<C(!new)>(sup: Relation<C>) {
    forall path: seq<C> :: Chain(path, sup) && |path| > 1 ==> path[0] != Last(path)
  }

  /** A supersedes chain of fired codes leads from a reported one to this one. */
  ghost predicate Explained<C(!new)>(code: C, fired: set<C>, sup: Relation<C>) {
    exists path: seq<C> :: Chain(path, sup) && Elements(path) <= fired && path[0] in Reported(fired, sup)
      && Last(path) == code
  }

  /** Nothing that fired is lost: it is reported, or explained by something reported. */
  ghost predicate LosesNothing<C(!new)>(fired: set<C>, sup: Relation<C>) {
    forall code :: code in fired ==> Explained(code, fired, sup)
  }

  /** No reported code supersedes another. */
  lemma ReportedUnrelated<C(!new)>(fired: set<C>, sup: Relation<C>, a: C, b: C)
    requires a in Reported(fired, sup) && b in Reported(fired, sup)
    ensures !sup(a, b)
  {
  }

  lemma {:induction false} DistinctBound<C(!new)>(path: seq<C>, fired: set<C>)
    requires Distinct(path) && Elements(path) <= fired
    ensures |path| <= |fired|
  {
    if path != [] {
      var rest := path[1..];
      assert path[0] in Elements(path);
      forall x | x in Elements(rest) ensures x in fired - {path[0]} {
        var i :| 0 <= i < |rest| && rest[i] == x;
        assert path[i + 1] == x;
        assert x in Elements(path);
      }
      DistinctBound(rest, fired - {path[0]});
    }
  }

  /** A chain extended at the front visits no code twice, unless the relation is cyclic. */
  lemma ExtendChain<C(!new)>(a: C, path: seq<C>, sup: Relation<C>)
    requires Acyclic(sup) && Chain(path, sup) && Distinct(path) && sup(a, path[0])
    ensures Chain([a] + path, sup) && Distinct([a] + path)
  {
    var longer := [a] + path;
    assert Chain(longer, sup);
    forall i | 0 <= i < |path| ensures path[i] != a {
      var loop := longer[..i + 2];
      assert Chain(loop, sup);
      assert Last(loop) == path[i] && loop[0] == a;
    }
  }

  /** Following supersedes edges back from a fired code reaches a reported one. */
  lemma {:induction false} Climb<C(!new)>(path: seq<C>, fired: set<C>, sup: Relation<C>)
    requires Acyclic(sup) && Chain(path, sup) && Distinct(path) && Elements(path) <= fired
    ensures Explained(Last(path), fired, sup)
    decreases |fired| - |path|
  {
    assert path[0] in Elements(path);
    if path[0] !in Reported(fired, sup) {
      var a :| a in fired && sup(a, path[0]);
      ExtendChain(a, path, sup);
      var longer := [a] + path;
      assert Elements(longer) <= fired;
      DistinctBound(longer, fired);
      Climb(longer, fired, sup);
      assert Last(longer) == Last(path);
    }
  }

  lemma AcyclicLosesNothing<C(!new)>(fired: set<C>, sup: Relation<C>)
    requires Acyclic(sup)
    ensures LosesNothing(fired, sup)
  {
    forall code | code in fired ensures Explained(code, fired, sup) {
      assert Last([code]) == code;
      Climb([code], fired, sup);
    }
  }

  /** A cycle of fired codes silences itself entirely. */
  lemma CycleSilencesItself<C(!new)>(path: seq<C>, sup: Relation<C>)
    requires Chain(path, sup) && |path| > 1 && path[0] == Last(path)
    ensures Reported(Elements(path), sup) == {}
    ensures !LosesNothing(Elements(path), sup)
  {
    var fired := Elements(path);
    forall b | b in fired ensures b !in Reported(fired, sup) {
      var i :| 0 <= i < |path| && path[i] == b;
      var before := if i == 0 then |path| - 2 else i - 1;
      assert path[before] in fired && sup(path[before], path[before + 1]);
    }
    assert path[0] in fired;
  }

  /** Suppression loses nothing, whatever fires, exactly when the relation is acyclic. */
  lemma LosesNothingExactly<C(!new)>(sup: Relation<C>)
    ensures (forall fired: set<C> :: LosesNothing(fired, sup)) <==> Acyclic(sup)
  {
    if Acyclic(sup) {
      forall fired: set<C> ensures LosesNothing(fired, sup) {
        AcyclicLosesNothing(fired, sup);
      }
    } else {
      var path: seq<C> :| Chain(path, sup) && |path| > 1 && path[0] == Last(path);
      CycleSilencesItself(path, sup);
    }
  }

  /** Something fired, so something is reported. */
  lemma SomethingReported<C(!new)>(fired: set<C>, sup: Relation<C>)
    requires Acyclic(sup) && fired != {}
    ensures Reported(fired, sup) != {}
  {
    AcyclicLosesNothing(fired, sup);
    var code :| code in fired;
    assert Explained(code, fired, sup);
  }

  /** A relation that only goes down a ranking is acyclic. */
  lemma {:induction false} RankedChain<C(!new)>(path: seq<C>, sup: Relation<C>, rank: C -> int)
    requires forall a, b :: sup(a, b) ==> rank(a) > rank(b)
    requires Chain(path, sup) && |path| > 1
    ensures rank(path[0]) > rank(Last(path))
  {
    var before := path[..|path| - 1];
    assert sup(path[|path| - 2], path[|path| - 2 + 1]);
    if |before| > 1 {
      RankedChain(before, sup, rank);
      assert Last(before) == path[|path| - 2];
    }
  }

  lemma RankedAcyclic<C(!new)>(sup: Relation<C>, rank: C -> int)
    requires forall a, b :: sup(a, b) ==> rank(a) > rank(b)
    ensures Acyclic(sup)
  {
    forall path: seq<C> | Chain(path, sup) && |path| > 1 ensures path[0] != Last(path) {
      RankedChain(path, sup, rank);
    }
  }
}
