/** Bounded scraping (internal/collector/collector.go, ScrapeAll): one goroutine per
    target, a semaphore bounding how many run, a wait group to wait for them, and
    cancellation at any moment. A state machine over every interleaving. */
module ScrapeAll {
  import opened Basics

  // ── State ────────

  /** Where a spawned goroutine is: not scheduled yet, inside the scrape, past it, past
      giving its slot back, past telling the wait group. */
  datatype Stage = Spawned | Scraping | Scraped | Released | Done

  /** Where the loop is: at the select, between taking a slot and spawning, at the final
      wait, past it. */
  datatype Loop = Select | Acquired | Wait | Returned

  /** workers[i] scrapes target i; scrapes lists the targets in the order their scrapes
      began. */
  datatype State = State(
    loop: Loop,
    slots: nat,
    waiting: nat,
    workers: seq<Stage>,
    cancelled: bool,
    scrapes: seq<nat>
  )

  predicate Initial(s: State) {
    s.loop == Select && s.slots == 0 && s.waiting == 0 && s.workers == [] && !s.cancelled && s.scrapes == []
  }

  datatype Step =
    | Cancel
    | GiveUp | Acquire | Spawn | EndLoop | Return
    | Begin(w: nat) | Finish(w: nat) | Release(w: nat) | Exit(w: nat)

  predicate At(s: State, w: nat, stage: Stage) {
    w < |s.workers| && s.workers[w] == stage
  }

  /** Go's select may take either ready case, so a slot can still be taken after
      cancellation. */
  predicate Enabled(s: State, step: Step, targets: nat, cap: nat) {
    match step
    case Cancel => !s.cancelled
    case GiveUp => s.loop == Select && |s.workers| < targets && s.cancelled
    case Acquire => s.loop == Select && |s.workers| < targets && s.slots < cap
    case Spawn => s.loop == Acquired
    case EndLoop => s.loop == Select && |s.workers| >= targets
    case Return => s.loop == Wait && s.waiting == 0
    case Begin(w) => At(s, w, Spawned)
    case Finish(w) => At(s, w, Scraping)
    case Release(w) => At(s, w, Scraped) && s.slots > 0
    case Exit(w) => At(s, w, Released) && s.waiting > 0
  }

  function Do(s: State, step: Step, targets: nat, cap: nat): State
    requires Enabled(s, step, targets, cap)
  {
    match step
    case Cancel => s.(cancelled := true)
    case GiveUp => s.(loop := Wait)
    case Acquire => s.(loop := Acquired, slots := s.slots + 1)
    case Spawn => s.(loop := Select, waiting := s.waiting + 1, workers := s.workers + [Spawned])
    case EndLoop => s.(loop := Wait)
    case Return => s.(loop := Returned)
    case Begin(w) => s.(workers := s.workers[w := Scraping], scrapes := s.scrapes + [w])
    case Finish(w) => s.(workers := s.workers[w := Scraped])
    case Release(w) => s.(workers := s.workers[w := Released], slots := s.slots - 1)
    case Exit(w) => s.(workers := s.workers[w := Done], waiting := s.waiting - 1)
  }

  // ── Invariants ────────

  /** How many goroutines are at a stage. */
  function Count(s: State, stage: Stage): nat {
    CountIn(s.workers, stage)
  }

  function CountIn(workers: seq<Stage>, stage: Stage): nat {
    if workers == [] then 0
    else CountIn(workers[..|workers| - 1], stage) + (if Last(workers) == stage then 1 else 0)
  }

  lemma {:induction false} Counted(workers: seq<Stage>, stage: Stage)
    ensures CountIn(workers, stage) > 0 <==> stage in workers
  {
    if workers != [] {
      Counted(workers[..|workers| - 1], stage);
      assert workers == workers[..|workers| - 1] + [Last(workers)];
    }
  }

  lemma CountSpawned(workers: seq<Stage>, stage: Stage)
    ensures CountIn(workers + [Spawned], stage) == CountIn(workers, stage) + (if stage == Spawned then 1 else 0)
  {
    assert (workers + [Spawned])[..|workers|] == workers;
  }

  function Holding(s: State): nat {
    Count(s, Spawned) + Count(s, Scraping) + Count(s, Scraped)
  }

  /** Every slot taken is held by a goroutine that has not given it back, or is on its
      way to one; every goroutine the wait group counts has not finished. */
  predicate Accounted(s: State, cap: nat) {
    && s.slots == Holding(s) + (if s.loop == Acquired then 1 else 0)
    && s.slots <= cap
    && s.waiting == Holding(s) + Count(s, Released)
  }

  /** The loop spawns a prefix of the targets, and stops short only when cancelled. */
  predicate Prefix(s: State, targets: nat) {
    && |s.workers| <= targets
    && (s.loop == Acquired ==> |s.workers| < targets)
    && (s.loop == Wait || s.loop == Returned ==> |s.workers| == targets || s.cancelled)
    && (s.loop == Returned ==> s.waiting == 0)
  }

  /** A scrape has begun, once, for exactly the goroutines past their first stage. */
  ghost predicate OncePerTarget(s: State) {
    && Distinct(s.scrapes)
    && (forall w :: w in s.scrapes <==> 0 <= w < |s.workers| && s.workers[w] != Spawned)
  }

  ghost predicate Inv(s: State, targets: nat, cap: nat) {
    Accounted(s, cap) && Prefix(s, targets) && OncePerTarget(s)
  }

  /** A goroutine moving on is counted at its new stage instead of its old one. */
  lemma {:induction false} Moved(workers: seq<Stage>, w: nat, to: Stage, stage: Stage)
    requires w < |workers| && workers[w] != to
    ensures CountIn(workers[w := to], stage) ==
            CountIn(workers, stage) + (if stage == to then 1 else 0) - (if stage == workers[w] then 1 else 0)
  {
    var before, n := workers[..|workers| - 1], |workers| - 1;
    if w < n {
      assert workers[w := to][..n] == before[w := to];
      Moved(before, w, to, stage);
    } else {
      assert workers[w := to][..n] == before;
    }
  }

  predicate IsWorkerStep(step: Step) {
    step.Begin? || step.Finish? || step.Release? || step.Exit?
  }

  /** How a goroutine's step changes the counts. */
  lemma WorkerCounts(s: State, step: Step, targets: nat, cap: nat, stage: Stage)
    requires Enabled(s, step, targets, cap) && IsWorkerStep(step)
    ensures var t := Do(s, step, targets, cap);
            Count(t, stage) == Count(s, stage)
              + (if stage == After(step) then 1 else 0) - (if stage == s.workers[step.w] then 1 else 0)
  {
    Moved(s.workers, step.w, After(step), stage);
  }

  function After(step: Step): Stage
    requires IsWorkerStep(step)
  {
    match step
    case Begin(_) => Scraping
    case Finish(_) => Scraped
    case Release(_) => Released
    case Exit(_) => Done
  }

  lemma AccountedStep(s: State, step: Step, targets: nat, cap: nat)
    requires Accounted(s, cap) && Prefix(s, targets) && Enabled(s, step, targets, cap)
    ensures Accounted(Do(s, step, targets, cap), cap)
  {
    if IsWorkerStep(step) {
      WorkerCounts(s, step, targets, cap, Spawned);
      WorkerCounts(s, step, targets, cap, Scraping);
      WorkerCounts(s, step, targets, cap, Scraped);
      WorkerCounts(s, step, targets, cap, Released);
    } else if step == Spawn {
      CountSpawned(s.workers, Spawned);
      CountSpawned(s.workers, Scraping);
      CountSpawned(s.workers, Scraped);
      CountSpawned(s.workers, Released);
    }
  }

  lemma PrefixStep(s: State, step: Step, targets: nat, cap: nat)
    requires Accounted(s, cap) && Prefix(s, targets) && Enabled(s, step, targets, cap)
    ensures Prefix(Do(s, step, targets, cap), targets)
  {
    if step.Exit? || step.Spawn? {
      assert s.loop == Returned ==> Idle(s) by {
        if s.loop == Returned {
          NothingRunning(s, cap);
        }
      }
    }
  }

  predicate Idle(s: State) {
    forall w :: 0 <= w < |s.workers| ==> s.workers[w] == Done
  }

  lemma NothingRunning(s: State, cap: nat)
    requires Accounted(s, cap) && s.waiting == 0
    ensures Idle(s)
  {
    forall w | 0 <= w < |s.workers| ensures s.workers[w] == Done {
      Counted(s.workers, s.workers[w]);
      assert s.workers[w] in s.workers;
    }
  }

  lemma OncePerTargetStep(s: State, step: Step, targets: nat, cap: nat)
    requires OncePerTarget(s) && Enabled(s, step, targets, cap)
    ensures OncePerTarget(Do(s, step, targets, cap))
  {
    var t := Do(s, step, targets, cap);
    if step.Begin? {
      assert step.w !in s.scrapes;
      forall w ensures w in t.scrapes <==> w in s.scrapes || w == step.w {
      }
    }
  }

  lemma InvStep(s: State, step: Step, targets: nat, cap: nat)
    requires Inv(s, targets, cap) && Enabled(s, step, targets, cap)
    ensures Inv(Do(s, step, targets, cap), targets, cap)
  {
    AccountedStep(s, step, targets, cap);
    PrefixStep(s, step, targets, cap);
    OncePerTargetStep(s, step, targets, cap);
  }

  // ── Runs ────────

  ghost predicate IsRun(run: seq<State>, targets: nat, cap: nat) {
    && run != [] && Initial(run[0])
    && forall i :: 0 <= i < |run| - 1 ==> Next(run[i], run[i + 1], targets, cap)
  }

  ghost predicate Next(s: State, t: State, targets: nat, cap: nat) {
    exists step :: Enabled(s, step, targets, cap) && t == Do(s, step, targets, cap)
  }

  lemma InitialInv(s: State, targets: nat, cap: nat)
    requires Initial(s)
    ensures Inv(s, targets, cap)
  {
  }

  lemma NextKeepsInv(s: State, t: State, targets: nat, cap: nat)
    requires Inv(s, targets, cap) && Next(s, t, targets, cap)
    ensures Inv(t, targets, cap)
  {
    var step :| Enabled(s, step, targets, cap) && t == Do(s, step, targets, cap);
    InvStep(s, step, targets, cap);
  }

  lemma {:induction false} RunKeepsInv(run: seq<State>, targets: nat, cap: nat, i: nat)
    requires IsRun(run, targets, cap) && i < |run|
    ensures Inv(run[i], targets, cap)
  {
    if i == 0 {
      InitialInv(run[0], targets, cap);
    } else {
      RunKeepsInv(run, targets, cap, i - 1);
      assert Next(run[i - 1], run[i - 1 + 1], targets, cap);
      NextKeepsInv(run[i - 1], run[i], targets, cap);
    }
  }

  ghost function RunningIn(workers: seq<Stage>): set<nat> {
    set w: nat | w < |workers| && workers[w] == Scraping
  }

  /** The targets whose scrape is in progress. */
  ghost function Running(s: State): set<nat> {
    RunningIn(s.workers)
  }

  lemma RunningSnoc(before: seq<Stage>, stage: Stage)
    ensures RunningIn(before + [stage]) ==
            if stage == Scraping then RunningIn(before) + {|before|} else RunningIn(before)
  {
  }

  lemma {:induction false} RunningCount(workers: seq<Stage>)
    ensures |RunningIn(workers)| == CountIn(workers, Scraping)
  {
    if workers == [] {
      assert RunningIn(workers) == {};
    } else {
      var before := workers[..|workers| - 1];
      RunningCount(before);
      RunningSnoc(before, Last(workers));
      assert workers == before + [Last(workers)];
      assert |before| !in RunningIn(before);
    }
  }

  /** A sequence listing each number below n exactly once has n elements. */
  lemma {:induction false} DistinctLength(xs: seq<nat>, n: nat)
    requires Distinct(xs) && forall w :: w in xs <==> 0 <= w < n
    ensures |xs| == n
  {
    if n > 0 {
      assert n - 1 in xs;
      var i :| 0 <= i < |xs| && xs[i] == n - 1;
      var rest := xs[..i] + xs[i + 1..];
      forall w ensures w in rest <==> w in xs && w != n - 1 {
        assert xs == xs[..i] + [n - 1] + xs[i + 1..];
        assert w in rest <==> w in xs[..i] || w in xs[i + 1..];
      }
      DistinctLength(rest, n - 1);
    } else {
      assert Elements(xs) == {};
      NoElements(xs);
    }
  }

  /** Main result. At every moment of every interleaving at most cap scrapes run. When
      ScrapeAll has returned none is running, and the targets scraped, each exactly once,
      are a prefix of the list: all of it, unless cancelled. */
  lemma ScrapesBounded(run: seq<State>, targets: nat, cap: nat, i: nat)
    requires IsRun(run, targets, cap) && i < |run|
    ensures |Running(run[i])| <= cap
    ensures Distinct(run[i].scrapes)
    ensures run[i].loop == Returned ==>
      && Running(run[i]) == {}
      && |run[i].scrapes| <= targets && (|run[i].scrapes| == targets || run[i].cancelled)
      && forall w :: w in run[i].scrapes <==> 0 <= w < |run[i].scrapes|
  {
    var s := run[i];
    RunKeepsInv(run, targets, cap, i);
    RunningCount(s.workers);
    if s.loop == Returned {
      NothingRunning(s, cap);
      DistinctLength(s.scrapes, |s.workers|);
    }
  }

  // ── Progress ────────

  /** With at least one slot the machine never gets stuck: until ScrapeAll has returned
      and every goroutine is done, some step other than cancellation is possible. */
  lemma NeverStuck(run: seq<State>, targets: nat, cap: nat, i: nat) returns (step: Step)
    requires IsRun(run, targets, cap) && i < |run| && cap > 0
    requires run[i].loop != Returned
    ensures step != Cancel && Enabled(run[i], step, targets, cap)
  {
    var s := run[i];
    RunKeepsInv(run, targets, cap, i);
    if s.loop == Acquired {
      step := Spawn;
    } else if s.loop == Select && |s.workers| >= targets {
      step := EndLoop;
    } else if s.loop == Select && s.slots < cap {
      step := Acquire;
    } else if s.loop == Wait && s.waiting == 0 {
      step := Return;
    } else {
      step := WorkerStep(s, targets, cap);
    }
  }

  lemma WorkerStep(s: State, targets: nat, cap: nat) returns (step: Step)
    requires Accounted(s, cap) && s.waiting > 0
    ensures step != Cancel && Enabled(s, step, targets, cap)
  {
    var w := Unfinished(s, cap);
    step := match s.workers[w]
            case Spawned => Begin(w)
            case Scraping => Finish(w)
            case Scraped => Release(w)
            case _ => Exit(w);
    Counted(s.workers, s.workers[w]);
  }

  lemma Unfinished(s: State, cap: nat) returns (w: nat)
    requires Accounted(s, cap) && s.waiting > 0
    ensures w < |s.workers| && s.workers[w] != Done
  {
    var stage := if Count(s, Spawned) > 0 then Spawned
                 else if Count(s, Scraping) > 0 then Scraping
                 else if Count(s, Scraped) > 0 then Scraped
                 else Released;
    Counted(s.workers, stage);
    w :| 0 <= w < |s.workers| && s.workers[w] == stage;
  }

  /** The steps goroutines still have ahead. */
  function WorkAhead(s: State): nat {
    4 * Count(s, Spawned) + 3 * Count(s, Scraping) + 2 * Count(s, Scraped) + Count(s, Released)
  }

  function LoopAhead(loop: Loop): nat {
    match loop
    case Select => 2
    case Acquired => 1
    case Wait => 1
    case Returned => 0
  }

  /** The steps still ahead at most, cancellation apart. */
  function Ahead(s: State, targets: nat): int {
    (targets - |s.workers|) * 6 + WorkAhead(s) + LoopAhead(s.loop)
  }

  lemma WorkerAheadFalls(s: State, step: Step, targets: nat, cap: nat)
    requires Enabled(s, step, targets, cap) && IsWorkerStep(step)
    ensures WorkAhead(Do(s, step, targets, cap)) == WorkAhead(s) - 1
  {
    WorkerCounts(s, step, targets, cap, Spawned);
    WorkerCounts(s, step, targets, cap, Scraping);
    WorkerCounts(s, step, targets, cap, Scraped);
    WorkerCounts(s, step, targets, cap, Released);
  }

  /** Every step but cancellation, which happens once, brings the end closer; so ScrapeAll
      always returns, after at most 6 steps for each target and a few more. */
  lemma AheadFalls(s: State, step: Step, targets: nat, cap: nat)
    requires Inv(s, targets, cap) && Enabled(s, step, targets, cap)
    ensures Ahead(s, targets) >= 0
    ensures var t := Do(s, step, targets, cap);
            if step == Cancel then Ahead(t, targets) == Ahead(s, targets) && !s.cancelled && t.cancelled
            else Ahead(t, targets) < Ahead(s, targets) && t.cancelled == s.cancelled
  {
    if IsWorkerStep(step) {
      WorkerAheadFalls(s, step, targets, cap);
    } else if step == Spawn {
      SpawnAhead(s, targets, cap);
    }
  }

  lemma SpawnAhead(s: State, targets: nat, cap: nat)
    requires Enabled(s, Spawn, targets, cap)
    ensures WorkAhead(Do(s, Spawn, targets, cap)) == WorkAhead(s) + 4
  {
    CountSpawned(s.workers, Spawned);
    CountSpawned(s.workers, Scraping);
    CountSpawned(s.workers, Scraped);
    CountSpawned(s.workers, Released);
  }

  /** The steps still ahead, a cancellation included. */
  function Potential(s: State, targets: nat): int {
    Ahead(s, targets) + (if s.cancelled then 0 else 1)
  }

  lemma PotentialFalls(s: State, t: State, targets: nat, cap: nat)
    requires Inv(s, targets, cap) && Next(s, t, targets, cap)
    ensures Potential(t, targets) < Potential(s, targets)
  {
    var step :| Enabled(s, step, targets, cap) && t == Do(s, step, targets, cap);
    AheadFalls(s, step, targets, cap);
  }

  lemma {:induction false} RunBoundedTo(run: seq<State>, targets: nat, cap: nat, i: nat)
    requires IsRun(run, targets, cap) && i < |run|
    ensures i + Potential(run[i], targets) <= 6 * targets + 3
  {
    if i > 0 {
      RunBoundedTo(run, targets, cap, i - 1);
      RunKeepsInv(run, targets, cap, i - 1);
      assert Next(run[i - 1], run[i - 1 + 1], targets, cap);
      PotentialFalls(run[i - 1], run[i], targets, cap);
    }
  }

  /** ScrapeAll always returns: no run is longer than six steps for each target and three
      more, and one that can go no further has returned. */
  lemma AlwaysReturns(run: seq<State>, targets: nat, cap: nat)
    requires IsRun(run, targets, cap) && cap > 0
    ensures |run| - 1 <= 6 * targets + 3
    ensures (forall step :: step != Cancel ==> !Enabled(Last(run), step, targets, cap)) ==> Last(run).loop == Returned
  {
    RunBoundedTo(run, targets, cap, |run| - 1);
    RunKeepsInv(run, targets, cap, |run| - 1);
    assert Potential(Last(run), targets) >= 0;
    if Last(run).loop != Returned {
      var step := NeverStuck(run, targets, cap, |run| - 1);
    }
  }
}
