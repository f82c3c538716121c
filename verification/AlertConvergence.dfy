/** What every interleaving keeps, part three: what one Notify establishes by the
    time it returns, whatever the consumer did meanwhile. */
module AlertConvergence {
  import opened Basics
  import opened Telemetry
  import opened AlertModel

  /** Every eligible finding is open, at a severity at least as high as reported. */
  predicate Covered(c: Config, open: map<string, OpenAlert>, recs: seq<Recommendation>) {
    forall i :: 0 <= i < |recs| && Eligible(c, recs[i]) ==>
      recs[i].id in open && open[recs[i].id].severity.Rank() <= recs[i].severity.Rank()
  }

  function EligibleCount(c: Config, recs: seq<Recommendation>): nat {
    if recs == [] then 0
    else EligibleCount(c, recs[..|recs| - 1]) + (if Eligible(c, Last(recs)) then 1 else 0)
  }

  /** Nothing to announce and nothing to resolve. */
  predicate Steady(c: Config, open: map<string, OpenAlert>, recs: seq<Recommendation>) {
    Covered(c, open, recs) && open.Keys == EligibleIds(c, recs)
  }

  /** Nothing at all happened since b but suppressing these findings. */
  ghost predicate Unmoved(s: State, recs: seq<Recommendation>, b: Base) {
    && s.open == b.open
    && |s.accepted| == b.accepted
    && s.dropped == b.dropped
    && s.suppressed == b.suppressed + EligibleCount(s.config, recs)
  }

  /** What holds after the first `recs` findings of a Notify that began at b. */
  ghost predicate Examined(s: State, recs: seq<Recommendation>, b: Base) {
    && b.dropped <= s.dropped
    && b.open.Keys <= s.open.Keys <= b.open.Keys + EligibleIds(s.config, recs)
    && (s.dropped == b.dropped ==> Covered(s.config, s.open, recs))
    && (Covered(s.config, b.open, recs) ==> Unmoved(s, recs, b))
  }

  ghost predicate ConvergenceInv(s: State) {
    match s.producer
    case Idle => true
    case Examining(recs, done, b) =>
      done <= |recs| && Examined(s, recs[..done], b)
    case Resolving(recs, pending, b) =>
      var ids := EligibleIds(s.config, recs);
      && b.dropped <= s.dropped
      && pending <= s.open.Keys
      && pending !! ids
      && s.open.Keys <= b.open.Keys + ids
      && (s.dropped == b.dropped ==> Covered(s.config, s.open, recs) && s.open.Keys == ids + pending)
      && (Steady(s.config, b.open, recs) ==>
            pending == {} && Unmoved(s, recs, b))
  }

  lemma EligibleAppend(c: Config, recs: seq<Recommendation>, k: nat)
    requires k < |recs|
    ensures EligibleIds(c, recs[..k + 1]) ==
            EligibleIds(c, recs[..k]) + (if Eligible(c, recs[k]) then {recs[k].id} else {})
    ensures EligibleCount(c, recs[..k + 1]) ==
            EligibleCount(c, recs[..k]) + (if Eligible(c, recs[k]) then 1 else 0)
  {
    assert recs[..k + 1][..k] == recs[..k];
    var longer, shorter := recs[..k + 1], recs[..k];
    forall id ensures id in EligibleIds(c, longer) <==>
                      id in EligibleIds(c, shorter) || (Eligible(c, recs[k]) && id == recs[k].id) {
      if id in EligibleIds(c, shorter) {
        var i :| 0 <= i < k && Eligible(c, shorter[i]) && shorter[i].id == id;
        assert longer[i] == shorter[i];
      }
      if Eligible(c, recs[k]) && id == recs[k].id {
        assert longer[k] == recs[k];
      }
      if id in EligibleIds(c, longer) {
        var i :| 0 <= i <= k && Eligible(c, longer[i]) && longer[i].id == id;
        assert i < k ==> longer[i] == shorter[i];
      }
    }
  }

  lemma CoveredAppend(c: Config, open: map<string, OpenAlert>, recs: seq<Recommendation>, k: nat)
    requires k < |recs|
    ensures Covered(c, open, recs[..k + 1]) <==>
            Covered(c, open, recs[..k]) &&
            (Eligible(c, recs[k]) ==>
               recs[k].id in open && open[recs[k].id].severity.Rank() <= recs[k].severity.Rank())
  {
    var longer, shorter := recs[..k + 1], recs[..k];
    assert forall i :: 0 <= i < k ==> longer[i] == shorter[i];
    assert longer[k] == recs[k];
  }

  /** A finding can only be re-recorded at a higher severity, so what was covered
      stays covered. */
  lemma ExamineKeepsCovered(s: State, rec: Recommendation, now: Time, recs: seq<Recommendation>)
    requires Covered(s.config, s.open, recs)
    ensures Covered(s.config, ExamineOne(s, rec, now).open, recs)
  {
  }

  lemma ExamineCovers(s: State, rec: Recommendation, now: Time)
    ensures var t := ExamineOne(s, rec, now);
            && t.config == s.config
            && s.dropped <= t.dropped
            && s.open.Keys <= t.open.Keys <= s.open.Keys + (if Eligible(s.config, rec) then {rec.id} else {})
            && (t.dropped == s.dropped && Eligible(s.config, rec) ==>
                  rec.id in t.open && t.open[rec.id].severity.Rank() <= rec.severity.Rank())
  {
  }

  lemma ExamineKeepsExamined(s: State, recs: seq<Recommendation>, k: nat, b: Base)
    requires k < |recs| && Examined(s, recs[..k], b)
    ensures Examined(ExamineOne(s, recs[k], b.now), recs[..k + 1], b)
  {
    var t := ExamineOne(s, recs[k], b.now);
    EligibleAppend(s.config, recs, k);
    ExamineCovers(s, recs[k], b.now);
    CoveredAppend(s.config, b.open, recs, k);
    if t.dropped == b.dropped {
      ExamineKeepsCovered(s, recs[k], b.now, recs[..k]);
      CoveredAppend(s.config, t.open, recs, k);
    }
    if Covered(s.config, b.open, recs[..k + 1]) {
      assert Unmoved(t, recs[..k + 1], b);
    }
  }

  lemma CoveredIds(c: Config, open: map<string, OpenAlert>, recs: seq<Recommendation>)
    requires Covered(c, open, recs)
    ensures EligibleIds(c, recs) <= open.Keys
  {
  }

  lemma CoveredWithout(c: Config, open: map<string, OpenAlert>, recs: seq<Recommendation>, id: string)
    requires Covered(c, open, recs) && id !in EligibleIds(c, recs)
    ensures Covered(c, open - {id}, recs)
  {
  }

  lemma ConvergenceStep(s: State, a: Action)
    requires ConvergenceInv(s) && Enabled(s, a)
    ensures ConvergenceInv(Apply(s, a))
  {
    match a
    case Begin(recs, now) => BeginConverges(s, recs, now);
    case Examine => ExamineConverges(s);
    case StartResolving => StartResolvingConverges(s);
    case Resolve(id) => ResolveConverges(s, id);
    case _ => ConsumerKeepsConvergence(s, a);
  }

  lemma BeginConverges(s: State, recs: seq<Recommendation>, now: Time)
    requires Enabled(s, Begin(recs, now))
    ensures ConvergenceInv(Apply(s, Begin(recs, now)))
  {
    assert recs[..0] == [];
  }

  lemma ExamineConverges(s: State)
    requires ConvergenceInv(s) && Enabled(s, Examine)
    ensures ConvergenceInv(Apply(s, Examine))
  {
    ExamineKeepsExamined(s, s.producer.recs, s.producer.done, s.producer.base);
  }

  lemma StartResolvingConverges(s: State)
    requires ConvergenceInv(s) && Enabled(s, StartResolving)
    ensures ConvergenceInv(Apply(s, StartResolving))
  {
    var recs := s.producer.recs;
    assert recs[..|recs|] == recs;
    if Covered(s.config, s.open, recs) {
      CoveredIds(s.config, s.open, recs);
    }
  }

  lemma ResolveConverges(s: State, id: string)
    requires ConvergenceInv(s) && Enabled(s, Resolve(id))
    ensures ConvergenceInv(Apply(s, Resolve(id)))
  {
    if Covered(s.config, s.open, s.producer.recs) {
      CoveredWithout(s.config, s.open, s.producer.recs, id);
    }
  }

  /** Ending a Notify and everything the consumer does leave the findings alone. */
  lemma ConsumerKeepsConvergence(s: State, a: Action)
    requires ConvergenceInv(s) && Enabled(s, a)
    requires a.EndNotify? || a.Take? || a.Post? || a.Stop? || a.Exit?
    ensures ConvergenceInv(Apply(s, a))
  {
  }

  lemma ConvergenceInitial(c: Config)
    ensures ConvergenceInv(Initial(c))
  {
  }
}
