/** Whole collector runs: `singlestep` and `luaC_fullgc` (lgc.cpp), interleaved with the program. */
module Cycle {
  import opened Heap
  import opened Marking
  import opened Collector
  import opened Propagation
  import opened AtomicPhase
  import opened Sweeping
  import opened Invariant
  import opened MarkSteps
  import opened SweepSteps
  import opened Closing
  import opened Reclaim
  import opened Mutator
  import opened WriteSteps

  /** One step of the collector. */
  function SingleStep(g: State): (r: State)
    requires Inv(g)
    ensures Inv(r)
  {
    StepReady(g);
    hide Inv;
    match g.phase
    case Pause => MarkRootKeeps(g); MarkRoot(g)
    case Propagate =>
      if g.gray != [] then PropagateMarkInv(g); PropagateMark(g)
      else AtomicInv(g); Atomic(g)
    case SweepString => SweepBucketInv(g); SweepBucket(g)
    case Sweep => SweepStepInv(g); SweepStep(g)
    case Finalize => FinishInv(g); g.(phase := Pause)
  }

  /** What the steps ask for. */
  lemma StepReady(g: State)
    requires Inv(g)
    ensures g.phase == Pause ==> Registered(g) && NoDangling(g) && AllWhite(g.color, g.white)
    ensures g.phase == SweepString ==> g.sweepStr < |g.strings|
    ensures g.phase == Sweep ==> SweepInv(g)
  {
  }

  lemma FinishInv(g: State)
    requires Inv(g) && g.phase == Finalize
    ensures Inv(g.(phase := Pause))
  {
  }

  function Rank(p: Phase): nat {
    match p
    case Pause => 0
    case Finalize => 1
    case Sweep => 2
    case SweepString => 3
    case Propagate => 4
  }

  /** What is left of the current phase, besides the white objects of the mark phase. */
  ghost function PhaseLeft(g: State): int {
    match g.phase
    case Propagate => |g.gray|
    case SweepString => |g.strings| - g.sweepStr
    case Sweep => |g.uvhead| + |g.rootgc| - g.sweepPos
    case _ => 0
  }

  ghost function WhitesLeft(g: State): set<Id> {
    if g.phase == Propagate then Whites(g.color) else {}
  }

  /** The measure under which a cycle ends: phase, then white objects, then gray list, bucket or
      sweep position. */
  ghost predicate Progressed(g: State, r: State) {
    && PhaseLeft(g) >= 0 && Rank(g.phase) <= Rank(r.phase) + 1
    && (|| Rank(r.phase) < Rank(g.phase)
        || (r.phase == g.phase && WhitesLeft(r) < WhitesLeft(g))
        || (r.phase == g.phase && WhitesLeft(r) == WhitesLeft(g) && PhaseLeft(r) < PhaseLeft(g)))
  }

  lemma SingleStepProgress(g: State)
    requires Inv(g) && g.phase != Pause
    ensures Progressed(g, SingleStep(g))
  {
    hide Inv;
    match g.phase
    case Propagate => MarkProgress(g);
    case SweepString => BucketProgress(g);
    case Sweep => SweepProgress(g);
    case Finalize =>
  }

  lemma BucketProgress(g: State)
    requires Inv(g) && g.phase == SweepString
    ensures Progressed(g, SweepBucket(g))
  {
    hide StringsListed, UpvalsListed, HeadListed, RootsListed, FixedKinds, RefsWithin, StringsSwept, RootsSwept,
         NoDangling, OpenNotBlack;
  }

  lemma SweepProgress(g: State)
    requires Inv(g) && g.phase == Sweep
    ensures Progressed(g, SweepStep(g))
  {
    SweepStepInv(g);
    SweepEnds(g, SweepStep(g));
  }

  lemma SweepEnds(g: State, r: State)
    requires g.phase == Sweep && g.sweepPos <= |g.rootgc|
    requires r.phase == Finalize || (r.phase == Sweep && SweepLeft(r) < SweepLeft(g))
    ensures Progressed(g, r)
  {
  }

  lemma MarkProgress(g: State)
    requires Inv(g) && g.phase == Propagate
    ensures Progressed(g, SingleStep(g))
  {
    if g.gray != [] {
      GrayHead(g);
      PropagateMarkProgress(g);
      MarkStepProgress(g, PropagateMark(g));
    } else {
      AtomicInv(g);
      AtomicEnds(g);
    }
  }

  lemma GrayHead(g: State)
    requires Inv(g) && g.phase == Propagate && g.gray != []
    ensures g.gray[0] in g.heap && g.gray[0] in g.color && !g.color[g.gray[0]].White?
  {
    assert g.gray[0] in g.gray;
  }

  lemma AtomicEnds(g: State)
    requires ReadyForAtomic(g) && g.phase == Propagate
    ensures Progressed(g, Atomic(g))
  {
  }

  lemma MarkStepProgress(g: State, r: State)
    requires g.phase == Propagate && SameLists(g, r)
    requires Whites(r.color) < Whites(g.color) || (Whites(r.color) == Whites(g.color) && |r.gray| < |g.gray|)
    ensures Progressed(g, r)
  {
  }

  /** Single steps until the collector is in phase `goal`. */
  function RunTo(g: State, goal: Phase): (r: State)
    requires Inv(g) && (g.phase == goal || Rank(g.phase) > Rank(goal))
    requires goal == Finalize || goal == Pause
    ensures Inv(r) && r.phase == goal
    decreases Rank(g.phase), WhitesLeft(g), PhaseLeft(g)
  {
    hide Inv;
    hide SingleStep;
    if g.phase == goal then g
    else
      SingleStepProgress(g);
      RunTo(SingleStep(g), goal)
  }

  /** `luaC_fullgc` drops a mark phase that is under way by sweeping everything back to white. */
  function ResetSweep(g: State): (r: State)
    requires Inv(g)
    ensures Inv(r) && Rank(r.phase) > 0
  {
    hide Inv;
    if g.phase == Pause || g.phase == Propagate then
      var r := g.(sweepStr := 0, sweepPos := 0, gray := [], grayAgain := [], weak := [], phase := SweepString);
      ResetKeeps(g, r);
      r
    else g
  }

  lemma ResetKeeps(g: State, r: State)
    requires Inv(g) && (g.phase == Pause || g.phase == Propagate)
    requires r == g.(sweepStr := 0, sweepPos := 0, gray := [], grayAgain := [], weak := [], phase := SweepString)
    ensures Inv(r)
  {
    ResetCore(g, r);
    forall u | u in r.heap && r.heap[u].OpenUpval? && u in r.color
      ensures r.color[u] != Black
    {
      OpenNeverBlack(g, u);
    }
  }

  lemma ResetCore(g: State, r: State)
    requires Registered(g) && NoDangling(g)
    requires r == g.(sweepStr := r.sweepStr, sweepPos := 0, gray := r.gray, grayAgain := r.grayAgain, weak := r.weak,
                     phase := r.phase)
    ensures Registered(r) && NoDangling(r)
  {
  }

  /** The state from which `luaC_fullgc` marks: everything is white and nothing is pending. */
  function FullStart(g: State): (r: State)
    requires Inv(g)
    ensures Inv(r) && r.phase == Finalize
  {
    hide Inv, RunTo, ResetSweep;
    RunTo(ResetSweep(g), Finalize)
  }

  lemma FullMarks(g: State)
    requires Inv(g) && g.phase == Finalize
    ensures Inv(MarkRoot(g)) && Rank(MarkRoot(g).phase) > Rank(Pause)
  {
    hide AllWhite, Registered, NoDangling;
    MarkRootKeeps(g);
  }

  function FullGC(g: State): (r: State)
    requires Inv(g)
    ensures Inv(r) && r.phase == Pause
  {
    hide Inv, RunTo, FullStart, MarkRoot;
    var s := FullStart(g);
    FullMarks(s);
    RunTo(MarkRoot(s), Pause)
  }

  // ---------- Runs ----------

  datatype Event = Collect | FullCollect | Run(action: Action)

  ghost predicate Enabled(g: State, e: Event) {
    e.Run? ==> Allowed(g, e.action)
  }

  function Next(g: State, e: Event): (r: State)
    requires Inv(g) && Enabled(g, e)
    ensures Inv(r)
  {
    match e
    case Collect => SingleStep(g)
    case FullCollect => FullGC(g)
    case Run(a) => ActInv(g, a); Act(g, a)
  }

  /** Every event of the run is enabled when it happens. */
  ghost predicate Possible(g: State, es: seq<Event>)
    requires Inv(g)
    decreases |es|
  {
    es == [] || (Enabled(g, es[0]) && Possible(Next(g, es[0]), es[1..]))
  }

  function Outcome(g: State, es: seq<Event>): (r: State)
    requires Inv(g) && Possible(g, es)
    ensures Inv(r)
    decreases |es|
  {
    if es == [] then g else Outcome(Next(g, es[0]), es[1..])
  }

  // ---------- Nothing live is freed ----------

  lemma CloseOneLive(g: State, th: Id)
    requires Inv(g) && CanClose(g, th, 0)
    ensures Live(CloseOne(g, th)) == Live(g)
  {
    var u := g.heap[th].openUpvals[0];
    FirstOpenFacts(g.heap, th, u);
    ClosedShape(g.heap, th, u);
    CloseOneInv(g, th);
    if HasOtherWhite(g, u) {
      CloseFreeForm(g, th, u);
      DeadDropped(g, u);
      assert Dropped(g, th, u).heap.Keys == (g.heap - {u}).Keys;
    } else {
      CloseKeepForm(g, th, u);
      CloseKeepLive(g, th, u, CloseOne(g, th));
    }
  }

  lemma CloseKeepLive(g: State, th: Id, u: Id, r: State)
    requires Inv(g) && Inv(r) && u in g.heap && !HasOtherWhite(g, u)
    requires r.heap.Keys == g.heap.Keys && r.phase == g.phase && r.fixed == g.fixed && r.white == g.white
    requires g.phase != Propagate ==> r.color == g.color || r.color == g.color[u := White(g.white)]
    ensures Live(r) == Live(g)
  {
    if g.phase == Propagate {
      NoneDead(g);
      NoneDead(r);
    } else {
      Whitened(g, u, r.color);
    }
  }
}
