/**
 The software pipeline as a whole: prologue, main loop over carried SSA values, epilogue. Its
 accumulators are those of the simple loop, each request is issued once and in step order, and
 each fragment and scale of a step is read once, all after the one barrier of that step and before
 any request that refills its stage.
 */
module SubtileKernel {
  import MixedRadix
  import opened Prelude
  import opened SubtileMachine
  import opened SubtileStage
  import opened SubtileEmitters
  import opened SubtileOverlap
  import opened SubtilePipeline

  // ------------------------------------------------------- carried loop values

  /** `_flatten_stage` */
  function Flatten(s: StageState): seq<Value> {
    [s.ready] + s.aFrags + s.bFrags + s.aScales + s.bScales
  }

  /** `_unflatten_stage`: cuts by tile counts alone. */
  function Unflatten(g: Geometry, values: seq<Value>): StageState
    requires |values| >= 1 + g.waveM + g.waveN + g.waveM / 2 + g.waveN / 2
  {
    var b := 1 + g.waveM;
    var sa := b + g.waveN;
    var sb := sa + g.waveM / 2;
    StageState(values[0], values[1..b], values[b..sa], values[sa..sb], values[sb..sb + g.waveN / 2])
  }

  predicate StageFits(g: Geometry, s: StageState) {
    && |s.aFrags| == g.waveM && |s.bFrags| == g.waveN
    && |s.aScales| == g.aGroups && |s.bScales| == g.bGroups
  }

  /** The carry loses nothing exactly when a step has two k-tiles. */
  lemma CarryRoundTrips(g: Geometry, s: StageState)
    requires g.Valid() && StageFits(g, s)
    ensures |Flatten(s)| >= 1 + g.waveM + g.waveN + g.waveM / 2 + g.waveN / 2
    ensures Unflatten(g, Flatten(s)) == s <==> g.waveK == 2
  {
    GroupsPerPair(g);
    var u := Unflatten(g, Flatten(s));
    if g.waveK == 2 {
      assert u.aFrags == s.aFrags && u.bFrags == s.bFrags && u.aScales == s.aScales && u.bScales == s.bScales;
    } else {
      assert |u.aScales| != |s.aScales|;
    }
  }

  lemma GroupsPerPair(g: Geometry)
    requires g.Valid()
    ensures g.waveM / 2 >= 1 && g.aGroups >= g.waveM / 2 && g.bGroups >= g.waveN / 2
    ensures g.waveK == 2 ==> g.aGroups == g.waveM / 2 && g.bGroups == g.waveN / 2
    ensures g.waveK != 2 ==> g.aGroups > g.waveM / 2
  {
    Pairs(g.waveM / 2, g.waveK / 2);
    Pairs(g.waveN / 2, g.waveK / 2);
  }

  lemma Pairs(half: nat, pairs: nat)
    requires half >= 1 && pairs >= 1
    ensures half * pairs >= half
    ensures pairs == 1 ==> half * pairs == half
    ensures pairs > 1 ==> half * pairs > half
  {
    assert half * pairs == half + half * (pairs - 1);
    MixedRadix.AtLeastOnce(pairs - 1, half);
    MixedRadix.Monotone(0, pairs - 1, half);
  }

  // ---------------------------------------------------------- loads of one step

  function LoadsOf(loads: seq<Read>, step: nat): seq<Read> {
    if loads == [] then []
    else
      var n := |loads| - 1;
      LoadsOf(loads[..n], step) + if loads[n].op.step == step then [loads[n]] else []
  }

  lemma {:induction false} LoadsOfConcat(left: seq<Read>, right: seq<Read>, step: nat)
    ensures LoadsOf(left + right, step) == LoadsOf(left, step) + LoadsOf(right, step)
  {
    if right == [] {
      assert left + right == left;
    } else {
      var n := |right| - 1;
      assert (left + right)[..|left| + n] == left + right[..n];
      LoadsOfConcat(left, right[..n], step);
    }
  }

  lemma {:induction false} LoadsOfUniform(loads: seq<Read>, owner: nat, step: nat)
    requires forall r | r in loads :: r.op.step == owner
    ensures LoadsOf(loads, step) == if step == owner then loads else []
  {
    if loads != [] {
      LoadsOfUniform(loads[..|loads| - 1], owner, step);
    }
  }

  /** Appending the loads of `owner` changes the loads of no other step. */
  lemma LoadsAppended(loads: seq<Read>, more: seq<Read>, owner: nat, step: nat)
    requires forall r | r in more :: r.op.step == owner
    ensures LoadsOf(loads + more, step) == LoadsOf(loads, step) + if step == owner then more else []
  {
    LoadsOfConcat(loads, more, step);
    LoadsOfUniform(more, owner, step);
  }

  lemma StageLoadsAppended(g: Geometry, loads: seq<Read>, owner: nat, ready: Value, issued: nat, step: nat)
    ensures LoadsOf(loads + StageLoads(g, owner, ready, issued), step)
            == LoadsOf(loads, step) + if step == owner then StageLoads(g, owner, ready, issued) else []
  {
    LoadsAppended(loads, StageLoads(g, owner, ready, issued), owner, step);
  }

  lemma K1LoadsAppended(g: Geometry, loads: seq<Read>, owner: nat, ready: Value, issued: nat, step: nat)
    ensures LoadsOf(loads + KTileLoads(g, owner, 1, ready, issued), step)
            == LoadsOf(loads, step) + if step == owner then KTileLoads(g, owner, 1, ready, issued) else []
  {
    LoadsAppended(loads, KTileLoads(g, owner, 1, ready, issued), owner, step);
  }

  /** The reads of a step: those that start it after `first` writes, the second k-tile after `second`. */
  function WholeStep(g: Geometry, step: nat, ready: Value, first: nat, second: nat): seq<Read> {
    StageLoads(g, step, ready, first) + KTileLoads(g, step, 1, ready, second)
  }

  /**
   Every fragment and scale of the step is read once, ordered after a single barrier, and before any
   request after those of the steps up to its successor.
   */
  ghost predicate StepRead(g: Geometry, loads: seq<Read>, step: nat)
    requires g.waves > 0
  {
    exists ready, first: nat, second: nat | first <= second <= |RequestsUpTo(g, step + 2)| ::
      LoadsOf(loads, step) == WholeStep(g, step, ready, first, second)
  }

  lemma StepIsRead(g: Geometry, loads: seq<Read>, step: nat, ready: Value, first: nat, second: nat)
    requires g.waves > 0 && first <= second <= |RequestsUpTo(g, step + 2)|
    requires LoadsOf(loads, step) == WholeStep(g, step, ready, first, second)
    ensures StepRead(g, loads, step)
  {}

  lemma MoreIssued(g: Geometry, n: nat)
    requires g.waves > 0
    ensures |RequestsUpTo(g, n)| <= |RequestsUpTo(g, n + 1)|
  {}

  // --------------------------------------------------------------- loop invariant

  /** What holds whenever the main loop reaches `iv`. */
  ghost predicate AtIteration(g: Geometry, lds: Lds, loads: seq<Read>, writes: seq<Request>, init: seq<Value>,
                              iv: nat, accs: seq<Value>, current: StageState, lookahead: Value)
    requires g.Valid() && |init| == g.waveM * g.waveN
  {
    && iv >= 2
    && accs == Contract(g, init, iv - 2)
    && current == LoadedStage(g, iv - 2, current.ready)
    && StageHolds(g, lds, iv - 2, current.ready)
    && StageHolds(g, lds, iv - 1, lookahead)
    && writes == RequestsUpTo(g, iv)
    && ReadUpTo(g, loads, iv - 2)
    && LoadsOf(loads, iv - 2) == StageLoads(g, iv - 2, current.ready, |RequestsUpTo(g, iv - 1)|)
    && UnreadFrom(loads, iv - 1)
  }

  ghost predicate ReadUpTo(g: Geometry, loads: seq<Read>, n: nat)
    requires g.waves > 0
  {
    forall s | 0 <= s < n :: StepRead(g, loads, s)
  }

  ghost predicate UnreadFrom(loads: seq<Read>, n: nat) {
    forall s: nat | s >= n :: LoadsOf(loads, s) == []
  }

  /** Every load that was carried out observed the data of its own step. */
  ghost predicate NoStaleReads(loads: seq<Read>, n: nat) {
    forall r | r in loads :: r.op.step < n && r.observed == Loaded(r.op.buffer, r.op.first, r.op.step)
  }

  /** The request fills the stage that was read, for a later step. */
  predicate Refills(request: Request, r: Read) {
    request.step > r.op.step && request.step % 2 == r.op.step % 2
  }

  /** No request for a later use of a stage was issued before a read of an earlier use. */
  ghost predicate RefillsWait(loads: seq<Read>, writes: seq<Request>) {
    forall r, q | r in loads && 0 <= q < |writes| && Refills(writes[q], r) :: r.issued <= q
  }

  lemma {:induction false} InItsStep(loads: seq<Read>, r: Read)
    requires r in loads
    ensures r in LoadsOf(loads, r.op.step)
  {
    var n := |loads| - 1;
    if loads[n] != r {
      InItsStep(loads[..n], r);
    }
  }

  lemma StepObserved(g: Geometry, step: nat, ready: Value, first: nat, second: nat)
    ensures forall r | r in WholeStep(g, step, ready, first, second) ::
      r.observed == Loaded(r.op.buffer, r.op.first, step) && (r.issued == first || r.issued == second)
  {}

  /** If each step is read once under its barrier and nothing else is read, no read is stale. */
  lemma ReadsAreOwn(g: Geometry, loads: seq<Read>, n: nat)
    requires g.waves > 0 && ReadUpTo(g, loads, n) && UnreadFrom(loads, n)
    ensures NoStaleReads(loads, n)
  {
    hide WholeStep, LoadsOf;
    forall r | r in loads
      ensures r.op.step < n && r.observed == Loaded(r.op.buffer, r.op.first, r.op.step)
    {
      InItsStep(loads, r);
      var step := r.op.step;
      if step < n {
        var ready, first, second := StepReadAs(g, loads, n, step);
        StepObserved(g, step, ready, first, second);
      }
    }
  }

  lemma StepReadAs(g: Geometry, loads: seq<Read>, n: nat, step: nat)
    returns (ready: Value, first: nat, second: nat)
    requires g.waves > 0 && ReadUpTo(g, loads, n) && step < n
    ensures first <= second <= |RequestsUpTo(g, step + 2)|
    ensures LoadsOf(loads, step) == WholeStep(g, step, ready, first, second)
  {
    hide WholeStep, LoadsOf, RequestsUpTo;
    assert StepRead(g, loads, step);
    ready, first, second :| first <= second <= |RequestsUpTo(g, step + 2)| &&
                            LoadsOf(loads, step) == WholeStep(g, step, ready, first, second);
  }

  /** The first requests of a run are those of its first steps. */
  lemma {:induction false} RequestsOfFirstSteps(g: Geometry, n: nat, m: nat, q: nat)
    requires g.Valid() && g.waves > 0 && m <= n && q < |RequestsUpTo(g, m)|
    ensures q < |RequestsUpTo(g, n)| && RequestsUpTo(g, n)[q].step < m
    decreases n
  {
    hide Geometry.Valid, StageRequests;
    if m < n {
      RequestsOfFirstSteps(g, n - 1, m, q);
    } else {
      StageRequestsStep(g, n - 1);
      if q < |RequestsUpTo(g, n - 1)| {
        RequestsOfFirstSteps(g, n - 1, n - 1, q);
      }
    }
  }

  /** With the requests in step order, such a run refills no stage before the last read of its previous use. */
  lemma NoEarlyRefill(g: Geometry, loads: seq<Read>, n: nat)
    requires g.Valid() && g.waves > 0 && ReadUpTo(g, loads, n) && UnreadFrom(loads, n)
    ensures RefillsWait(loads, RequestsUpTo(g, n))
  {
    hide Geometry.Valid, WholeStep, LoadsOf, RequestsUpTo;
    var writes := RequestsUpTo(g, n);
    forall r, q | r in loads && 0 <= q < |writes| && Refills(writes[q], r)
      ensures r.issued <= q
    {
      InItsStep(loads, r);
      var step := r.op.step;
      if step < n {
        var ready, first, second := StepReadAs(g, loads, n, step);
        StepObserved(g, step, ready, first, second);
        var last := if step + 2 <= n then step + 2 else n;
        if q < |RequestsUpTo(g, last)| {
          RequestsOfFirstSteps(g, n, last, q);
        }
      }
    }
  }

  /** A settled stage survives the refill of the other one. */
  lemma KeptHolds(g: Geometry, before: Lds, after: Lds, refilled: nat, step: nat, ready: Value)
    requires OtherStageKept(before, after, refilled) && step % 2 != refilled % 2
    requires StageHolds(g, before, step, ready) && after.Keys == g.Cells()
    ensures StageHolds(g, after, step, ready)
  {}

  lemma FinishedStep(g: Geometry, step: nat, ready: Value, first: nat, second: nat)
    ensures StageLoads(g, step, ready, first) + KTileLoads(g, step, 1, ready, second)
            == WholeStep(g, step, ready, first, second)
  {}

  /** The loads of one iteration: finish iv-2, start iv, start and finish iv-1. */
  lemma IterationLoads(g: Geometry, loads: seq<Read>, iv: nat, current: Value, next: Value, lookahead: Value)
    requires g.waves > 0 && iv >= 2 && ReadUpTo(g, loads, iv - 2) && UnreadFrom(loads, iv - 1)
    requires LoadsOf(loads, iv - 2) == StageLoads(g, iv - 2, current, |RequestsUpTo(g, iv - 1)|)
    ensures var all := loads + KTileLoads(g, iv - 2, 1, current, |RequestsUpTo(g, iv)|)
                       + StageLoads(g, iv, next, |RequestsUpTo(g, iv + 1)|)
                       + StageLoads(g, iv - 1, lookahead, |RequestsUpTo(g, iv + 1)|)
                       + KTileLoads(g, iv - 1, 1, lookahead, |RequestsUpTo(g, iv + 1)|);
            && ReadUpTo(g, all, iv)
            && LoadsOf(all, iv) == StageLoads(g, iv, next, |RequestsUpTo(g, iv + 1)|)
            && UnreadFrom(all, iv + 1)
  {
    hide StageLoads, KTileLoads, LoadsOf, RequestsUpTo, StepRead, WholeStep;
    var n0, n1, n2 := |RequestsUpTo(g, iv - 1)|, |RequestsUpTo(g, iv)|, |RequestsUpTo(g, iv + 1)|;
    MoreIssued(g, iv - 1);
    var l1 := loads + KTileLoads(g, iv - 2, 1, current, n1);
    var l2 := l1 + StageLoads(g, iv, next, n2);
    var l3 := l2 + StageLoads(g, iv - 1, lookahead, n2);
    var all := l3 + KTileLoads(g, iv - 1, 1, lookahead, n2);
    forall s: nat
      ensures LoadsOf(all, s) == LoadsOf(loads, s)
        + (if s == iv - 2 then KTileLoads(g, s, 1, current, n1) else [])
        + (if s == iv then StageLoads(g, s, next, n2) else [])
        + (if s == iv - 1 then WholeStep(g, s, lookahead, n2, n2) else [])
    {
      K1LoadsAppended(g, loads, iv - 2, current, n1, s);
      StageLoadsAppended(g, l1, iv, next, n2, s);
      StageLoadsAppended(g, l2, iv - 1, lookahead, n2, s);
      K1LoadsAppended(g, l3, iv - 1, lookahead, n2, s);
      if s == iv - 1 { FinishedStep(g, s, lookahead, n2, n2); }
    }
    forall s | 0 <= s < iv ensures StepRead(g, all, s) {
      if s == iv - 2 {
        FinishedStep(g, s, current, n0, n1);
        StepIsRead(g, all, s, current, n0, n1);
      } else if s == iv - 1 {
        StepIsRead(g, all, s, lookahead, n2, n2);
      } else {
        StillRead(g, loads, all, s);
      }
    }
  }

  /** A step that is read stays read when the loads of other steps are appended. */
  lemma StillRead(g: Geometry, loads: seq<Read>, all: seq<Read>, step: nat)
    requires g.waves > 0 && StepRead(g, loads, step) && LoadsOf(all, step) == LoadsOf(loads, step)
    ensures StepRead(g, all, step)
  {}

  // --------------------------------------------------------------------- schedule

  function Tiles(g: Geometry): nat { g.waveM * g.waveN }

  /** One trip: step iv-2 with its refill and reads, the first reads of iv-1, then that step with its refill. */
  function TripStamps(g: Geometry, mmas: nat): seq<nat>
    requires g.waves > 0
  {
    var requests, local, next := |StageRequests(g, 0)|, g.waveM + g.waveN, mmas + 2 * Tiles(g);
    StepStamps(g, mmas, requests, local + requests + FullCount(g)) + Stamps(next, FullCount(g))
    + StepStamps(g, next, requests, local + requests)
  }

  function LoopStamps(g: Geometry, mmas: nat, trips: nat): seq<nat>
    requires g.waves > 0
  {
    if trips == 0 then [] else LoopStamps(g, mmas, trips - 1) + TripStamps(g, mmas + (trips - 1) * (4 * Tiles(g)))
  }

  /** Two stages filled and one of them read before the first MMA. */
  function PrologueStamps(g: Geometry): seq<nat>
    requires g.waves > 0
  {
    Stamps(0, |StageRequests(g, 0)|) + Stamps(0, FullCount(g)) + Stamps(0, |StageRequests(g, 0)|)
  }

  function EpilogueStamps(g: Geometry, mmas: nat): seq<nat> {
    var local, next := g.waveM + g.waveN, mmas + 2 * Tiles(g);
    StepStamps(g, mmas, 0, local) + Stamps(next, FullCount(g)) + StepStamps(g, next, 0, local)
  }

  /** The MMAs issued before each read and request of a whole run. */
  function RunStamps(g: Geometry, trips: nat): seq<nat>
    requires g.waves > 0
  {
    if g.steps == 1 then
      Stamps(0, |StageRequests(g, 0)|) + Stamps(0, FullCount(g)) + StepStamps(g, 0, 0, g.waveM + g.waveN)
    else
      PrologueStamps(g) + LoopStamps(g, 0, trips) + EpilogueStamps(g, trips * (4 * Tiles(g)))
  }

  lemma ThreeJoined<T>(s: seq<T>, a: seq<T>, b: seq<T>, c: seq<T>)
    ensures s + a + b + c == s + (a + b + c)
  {}

  lemma EpilogueIs(g: Geometry, mmas: nat, s0: seq<nat>, s1: seq<nat>, s2: seq<nat>, s3: seq<nat>)
    requires s1 == s0 + StepStamps(g, mmas, 0, g.waveM + g.waveN)
    requires s2 == s1 + Stamps(mmas + 2 * (g.waveM * g.waveN), FullCount(g))
    requires s3 == s2 + StepStamps(g, mmas + 2 * (g.waveM * g.waveN), 0, g.waveM + g.waveN)
    ensures s3 == s0 + EpilogueStamps(g, mmas)
  {
    hide StepStamps, Stamps;
    ThreeJoined(s0, StepStamps(g, mmas, 0, g.waveM + g.waveN), Stamps(mmas + 2 * Tiles(g), FullCount(g)),
                StepStamps(g, mmas + 2 * Tiles(g), 0, g.waveM + g.waveN));
  }

  lemma TripIs(g: Geometry, mmas: nat, s0: seq<nat>, s1: seq<nat>, s2: seq<nat>, s3: seq<nat>)
    requires g.waves > 0
    requires var requests, local := |StageRequests(g, 0)|, g.waveM + g.waveN;
             && s1 == s0 + StepStamps(g, mmas, requests, local + requests + FullCount(g))
             && s2 == s1 + Stamps(mmas + 2 * (g.waveM * g.waveN), FullCount(g))
             && s3 == s2 + StepStamps(g, mmas + 2 * (g.waveM * g.waveN), requests, local + requests)
    ensures s3 == s0 + TripStamps(g, mmas)
  {
    hide StepStamps, Stamps, StageRequests;
    var requests, local := |StageRequests(g, 0)|, g.waveM + g.waveN;
    ThreeJoined(s0, StepStamps(g, mmas, requests, local + requests + FullCount(g)),
                Stamps(mmas + 2 * Tiles(g), FullCount(g)),
                StepStamps(g, mmas + 2 * Tiles(g), requests, local + requests));
  }

  lemma NextTrip(g: Geometry, mmas: nat, trips: nat)
    requires g.waves > 0
    ensures LoopStamps(g, mmas, trips + 1) == LoopStamps(g, mmas, trips) + TripStamps(g, mmas + trips * (4 * Tiles(g)))
    ensures (trips + 1) * (4 * Tiles(g)) == trips * (4 * Tiles(g)) + 4 * Tiles(g)
    ensures LoopStamps(g, mmas, 0) == [] && 0 * (4 * Tiles(g)) == 0
  {
    hide TripStamps;
    MixedRadix.Distributes(trips, 1, 4 * Tiles(g));
  }

  // --------------------------------------------------------------------- methods

  /** One trip of the main loop at induction value `iv`. */
  method LoopBody(g: Geometry, machine: Machine, ghost init: seq<Value>, iv: nat, accs: seq<Value>,
                  current: StageState, lookahead: Value)
    returns (out: seq<Value>, next: StageState, nextReady: Value)
    requires g.Valid() && g.waveK == 2 && |init| == g.waveM * g.waveN
    requires AtIteration(g, machine.lds, machine.loads, machine.writes, init, iv, accs, current, lookahead)
    modifies machine
    ensures AtIteration(g, machine.lds, machine.loads, machine.writes, init, iv + 2, out, next, nextReady)
    ensures g.waves > 0 && machine.mmas == old(machine.mmas) + 4 * Tiles(g)
    ensures machine.stamps == old(machine.stamps) + TripStamps(g, old(machine.mmas))
  {
    hide Geometry.Valid, StepStamps, Stamps, KTiles, StageLoads, KTileLoads, StageRequests, LoadedStage, LoadsOf,
         RequestsUpTo, ReadUpTo, UnreadFrom, Contract, OtherStageKept, TripStamps;
    PositiveWaves(g);
    TwoMoreSteps(g, init, iv);
    RequestCount(g, iv);
    RequestCount(g, iv + 1);
    ghost var stamps, mmas := machine.stamps, machine.mmas;
    ghost var loads := machine.loads;
    ghost var lds0 := machine.lds;
    out, next := EmitStageWithNext(g, machine, iv - 2, current, accs);
    KeptHolds(g, lds0, machine.lds, iv - 2, iv - 1, lookahead);
    ghost var lds1, stamps1 := machine.lds, machine.stamps;
    var state := ReadStageK0(g, machine, iv - 1, lookahead);
    ghost var stamps2 := machine.stamps;
    StageReadyIs(g, iv - 1, lookahead);
    out, nextReady := EmitStageWithNextReady(g, machine, iv - 1, state, out);
    KeptHolds(g, lds1, machine.lds, iv - 1, iv, next.ready);
    TripIs(g, mmas, stamps, stamps1, stamps2, machine.stamps);
    IterationLoads(g, loads, iv, current.ready, next.ready, lookahead);
  }

  lemma StageReadyIs(g: Geometry, step: nat, ready: Value)
    ensures LoadedStage(g, step, ready).ready == ready
  {}

  lemma TwoMoreSteps(g: Geometry, init: seq<Value>, iv: nat)
    requires g.Valid() && g.waveK == 2 && |init| == g.waveM * g.waveN && iv >= 2
    ensures Contract(g, init, iv - 1) == KTiles(g, Contract(g, init, iv - 2), iv - 2, 2)
    ensures Contract(g, init, iv) == KTiles(g, Contract(g, init, iv - 1), iv - 1, 2)
    ensures RequestsUpTo(g, iv + 1) == RequestsUpTo(g, iv) + StageRequests(g, iv)
    ensures RequestsUpTo(g, iv + 2) == RequestsUpTo(g, iv + 1) + StageRequests(g, iv + 1)
  {}

  lemma PositiveWaves(g: Geometry)
    requires g.Valid()
    ensures g.waves > 0
  {}

  /** `compute_sim_loop_trip_count` for this kernel. */
  function LoopTrips(virtualKSteps: nat): nat {
    if virtualKSteps >= 2 then (virtualKSteps - 2) / 2 else 0
  }

  lemma StageFitsAt(g: Geometry, machine: Machine, init: seq<Value>, iv: nat, accs: seq<Value>, current: StageState,
                    lookahead: Value)
    requires g.Valid() && |init| == g.waveM * g.waveN
    requires AtIteration(g, machine.lds, machine.loads, machine.writes, init, iv, accs, current, lookahead)
    ensures StageFits(g, current) && |accs| == |init|
    ensures |Flatten(current)| == 1 + g.waveM + g.waveN + g.aGroups + g.bGroups
  {}

  /** The carried tuple holds exactly these accumulators, stage registers and lookahead token. */
  ghost predicate Carries(g: Geometry, carry: seq<Value>, stateSize: nat, accs: seq<Value>, s: StageState,
                          lookahead: Value)
  {
    && g.Valid() && g.waveK == 2 && StageFits(g, s) && |accs| == g.waveM * g.waveN && |Flatten(s)| == stateSize
    && carry == accs + Flatten(s) + [lookahead]
  }

  /** Cuts the carried tuple apart by tile counts. */
  method Unpack(g: Geometry, carry: seq<Value>, stateSize: nat, ghost accs0: seq<Value>, ghost s0: StageState,
                ghost lookahead0: Value)
    returns (accs: seq<Value>, s: StageState, lookahead: Value)
    requires Carries(g, carry, stateSize, accs0, s0, lookahead0)
    ensures accs == accs0 && s == s0 && lookahead == lookahead0
  {
    var tiles := g.waveM * g.waveN;
    accs := carry[..tiles];
    var rest := carry[tiles..];
    assert rest == Flatten(s0) + [lookahead0];
    assert rest[..stateSize] == Flatten(s0);
    CarryRoundTrips(g, s0);
    s := Unflatten(g, rest[..stateSize]);
    lookahead := rest[stateSize];
  }

  /** `_emit_tensilelite_main_loop`: everything crosses the back edge as one flat tuple of values. */
  method MainLoop(g: Geometry, machine: Machine, tripCount: nat, accs: seq<Value>, current: StageState,
                  lookahead: Value)
    returns (out: seq<Value>, last: StageState, lastReady: Value, trips: nat)
    requires g.Valid() && g.tensileLite && g.steps >= 2 && tripCount + 1 == g.steps
    requires |accs| == g.waveM * g.waveN
    requires AtIteration(g, machine.lds, machine.loads, machine.writes, accs, 2, accs, current, lookahead)
    modifies machine
    ensures AtIteration(g, machine.lds, machine.loads, machine.writes, accs, g.steps, out, last, lastReady)
    ensures trips == LoopTrips(g.steps)
    ensures g.waves > 0 && machine.mmas == old(machine.mmas) + trips * (4 * Tiles(g))
    ensures machine.stamps == old(machine.stamps) + LoopStamps(g, old(machine.mmas), trips)
  {
    hide AtIteration, Flatten, Carries, KTiles, LoadsOf, LoopStamps, TripStamps, Tiles;
    PositiveWaves(g);
    NextTrip(g, machine.mmas, 0);
    if g.steps <= 2 {
      return accs, current, lookahead, 0;
    }
    StageFitsAt(g, machine, accs, 2, accs, current, lookahead);
    var stateSize := |Flatten(current)|;
    var upper := tripCount + 1;
    var carry := accs + Flatten(current) + [lookahead];
    ghost var gAccs, gLast, gReady := accs, current, lookahead;
    Packs(g, machine, accs, 2, accs, current, lookahead, stateSize);
    trips := 0;
    var iv := 2;
    while iv < upper
      invariant iv == 2 + 2 * trips && iv <= upper
      invariant Carries(g, carry, stateSize, gAccs, gLast, gReady)
      invariant AtIteration(g, machine.lds, machine.loads, machine.writes, accs, iv, gAccs, gLast, gReady)
      invariant machine.mmas == old(machine.mmas) + trips * (4 * Tiles(g))
      invariant machine.stamps == old(machine.stamps) + LoopStamps(g, old(machine.mmas), trips)
    {
      hide Geometry.Valid;
      var loopAccs, loopCurrent, loopReady := Unpack(g, carry, stateSize, gAccs, gLast, gReady);
      SameSize(g, carry, stateSize, gAccs, gLast, gReady);
      NextTrip(g, old(machine.mmas), trips);
      Joined(old(machine.stamps), LoopStamps(g, old(machine.mmas), trips), TripStamps(g, machine.mmas));
      var nextAccs, next, nextReady := LoopBody(g, machine, accs, iv, loopAccs, loopCurrent, loopReady);
      carry := nextAccs + Flatten(next) + [nextReady];
      Packs(g, machine, accs, iv + 2, nextAccs, next, nextReady, stateSize);
      gAccs, gLast, gReady := nextAccs, next, nextReady;
      iv := iv + 2;
      trips := trips + 1;
    }
    out, last, lastReady := Unpack(g, carry, stateSize, gAccs, gLast, gReady);
  }

  lemma SameSize(g: Geometry, carry: seq<Value>, stateSize: nat, accs: seq<Value>, s: StageState, lookahead: Value)
    requires Carries(g, carry, stateSize, accs, s, lookahead)
    ensures stateSize == 1 + g.waveM + g.waveN + g.aGroups + g.bGroups && g.waveK == 2
  {}

  lemma Packs(g: Geometry, machine: Machine, init: seq<Value>, iv: nat, accs: seq<Value>, current: StageState,
              lookahead: Value, stateSize: nat)
    requires g.Valid() && g.waveK == 2 && |init| == g.waveM * g.waveN
    requires stateSize == 1 + g.waveM + g.waveN + g.aGroups + g.bGroups
    requires AtIteration(g, machine.lds, machine.loads, machine.writes, init, iv, accs, current, lookahead)
    ensures Carries(g, accs + Flatten(current) + [lookahead], stateSize, accs, current, lookahead)
  {}

  /** `_emit_tensilelite_pipeline` on fresh LDS; `tripCount` is the kernel argument. */
  method Pipeline(g: Geometry, machine: Machine, tripCount: nat, init: seq<Value>)
    returns (out: seq<Value>, trips: nat)
    requires g.Valid() && g.tensileLite && tripCount + 1 == g.steps && |init| == g.waveM * g.waveN
    requires machine.lds.Keys == g.Cells() && machine.loads == [] && machine.writes == []
    requires machine.mmas == 0 && machine.stamps == []
    modifies machine
    ensures out == Contract(g, init, g.steps)
    ensures machine.writes == RequestsUpTo(g, g.steps)
    ensures ReadUpTo(g, machine.loads, g.steps) && UnreadFrom(machine.loads, g.steps)
    ensures NoStaleReads(machine.loads, g.steps)
    ensures RefillsWait(machine.loads, machine.writes)
    ensures g.waves > 0 && machine.mmas == g.steps * (2 * Tiles(g)) && machine.stamps == RunStamps(g, trips)
    ensures trips == LoopTrips(g.steps)
  {
    hide *;
    Shape(g);
    FirstSteps(g);
    RequestCount(g, 1);
    var ready := StageReady(g, machine, 0);
    var current := ReadStageK0(g, machine, 0, ready);
    StageReadyIs(g, 0, ready);
    StageLoadsOnly(g, ready, |machine.writes|);
    if g.steps == 1 {
      out := SingleStep(g, machine, init, current);
      return out, 0;
    }
    ghost var lds := machine.lds;
    var lookahead := StageReady(g, machine, 1);
    KeptHolds(g, lds, machine.lds, 1, 0, ready);
    AtStart(g, machine.lds, machine.loads, machine.writes, init, current, lookahead);
    PrologueIs(g, machine.stamps);
    out, current, lookahead, trips := MainLoop(g, machine, tripCount, init, current, lookahead);
    out := Epilogue(g, machine, tripCount, init, out, current, lookahead);
    AtEnd(g, machine.loads, trips);
  }

  lemma Shape(g: Geometry)
    requires g.Valid() && g.tensileLite
    ensures g.waves > 0 && g.waveK == 2 && (g.steps == 1 || (g.steps >= 2 && g.steps % 2 == 0))
    ensures g.steps == 1 ==> LoopTrips(g.steps) == 0
  {}

  /** The loop invariant holds at 2 after the prologue. */
  lemma AtStart(g: Geometry, lds: Lds, loads: seq<Read>, writes: seq<Request>, init: seq<Value>, current: StageState,
                lookahead: Value)
    requires g.Valid() && g.waves > 0 && |init| == g.waveM * g.waveN && current == LoadedStage(g, 0, current.ready)
    requires StageHolds(g, lds, 0, current.ready) && StageHolds(g, lds, 1, lookahead)
    requires writes == RequestsUpTo(g, 2) && LoadsOf(loads, 0) == loads && UnreadFrom(loads, 1)
    requires loads == StageLoads(g, 0, current.ready, |RequestsUpTo(g, 1)|)
    ensures AtIteration(g, lds, loads, writes, init, 2, init, current, lookahead)
  {
    hide Geometry.Valid, StageLoads, LoadsOf, RequestsUpTo, LoadedStage, StageHolds;
  }

  lemma AtEnd(g: Geometry, loads: seq<Read>, trips: nat)
    requires g.Valid() && g.tensileLite && g.steps >= 2 && trips == LoopTrips(g.steps)
    requires g.waves > 0 && ReadUpTo(g, loads, g.steps) && UnreadFrom(loads, g.steps)
    ensures NoStaleReads(loads, g.steps) && RefillsWait(loads, RequestsUpTo(g, g.steps))
    ensures trips * (4 * Tiles(g)) + 4 * Tiles(g) == g.steps * (2 * Tiles(g))
    ensures RunStamps(g, trips)
            == PrologueStamps(g) + LoopStamps(g, 0, trips) + EpilogueStamps(g, trips * (4 * Tiles(g)))
  {
    hide ReadUpTo, UnreadFrom, NoStaleReads, RefillsWait, RequestsUpTo, PrologueStamps, LoopStamps, EpilogueStamps,
         Tiles;
    ReadsAreOwn(g, loads, g.steps);
    NoEarlyRefill(g, loads, g.steps);
    Shape(g);
    RunMmas(g.steps, trips, Tiles(g));
  }

  /** A run of one step, with nothing to overlap. */
  method SingleStep(g: Geometry, machine: Machine, init: seq<Value>, current: StageState) returns (out: seq<Value>)
    requires g.Valid() && g.tensileLite && g.steps == 1 && g.waves > 0 && |init| == g.waveM * g.waveN
    requires current == LoadedStage(g, 0, current.ready) && StageHolds(g, machine.lds, 0, current.ready)
    requires machine.writes == RequestsUpTo(g, 1) && machine.mmas == 0
    requires LoadsOf(machine.loads, 0) == machine.loads == StageLoads(g, 0, current.ready, |machine.writes|)
    requires UnreadFrom(machine.loads, 1)
    requires machine.stamps == [] + Stamps(0, |StageRequests(g, 0)|) + Stamps(0, FullCount(g))
    modifies machine
    ensures out == Contract(g, init, 1)
    ensures machine.writes == RequestsUpTo(g, 1)
    ensures ReadUpTo(g, machine.loads, 1) && UnreadFrom(machine.loads, 1)
    ensures NoStaleReads(machine.loads, 1) && RefillsWait(machine.loads, machine.writes)
    ensures machine.mmas == g.steps * (2 * Tiles(g)) && machine.stamps == RunStamps(g, 0)
  {
    Shape(g);
    NoneBefore(g, machine.loads, init);
    MoreIssued(g, 1);
    SingleStamps(g);
    hide Geometry.Valid, StageLoads, KTileLoads, KTiles, Contract, LoadsOf, RunStamps, StageRequests, RequestsUpTo,
         ReadUpTo, UnreadFrom, Stamps, StepStamps, LoadedStage, RefillsWait, NoStaleReads, StageHolds;
    ghost var loads := machine.loads;
    out := EmitStageFinal(g, machine, 0, current, init);
    LastStepRead(g, loads, 0, current.ready, |machine.writes|, |machine.writes|);
    ReadsAreOwn(g, machine.loads, 1);
    NoEarlyRefill(g, machine.loads, 1);
  }

  lemma NoneBefore(g: Geometry, loads: seq<Read>, init: seq<Value>)
    requires g.Valid() && g.waves > 0 && g.waveK == 2 && |init| == g.waveM * g.waveN
    ensures ReadUpTo(g, loads, 0) && Contract(g, init, 1) == KTiles(g, init, 0, 2)
  {
    hide Geometry.Valid, KTiles;
    assert Contract(g, init, 0) == init;
  }

  lemma SingleStamps(g: Geometry)
    requires g.Valid() && g.steps == 1
    ensures RunStamps(g, 0) == [] + Stamps(0, |StageRequests(g, 0)|) + Stamps(0, FullCount(g))
                               + StepStamps(g, 0, 0, g.waveM + g.waveN)
    ensures g.steps * (2 * Tiles(g)) == 2 * Tiles(g)
  {
    hide StepStamps;
  }

  lemma PrologueIs(g: Geometry, stamps: seq<nat>)
    requires g.waves > 0
    requires stamps == [] + Stamps(0, |StageRequests(g, 0)|) + Stamps(0, FullCount(g))
                       + Stamps(0, |StageRequests(g, 0)|)
    ensures stamps == PrologueStamps(g)
  {
    hide Stamps;
  }

  lemma RunMmas(steps: nat, trips: nat, tiles: nat)
    requires steps >= 2 && steps % 2 == 0 && trips == (steps - 2) / 2
    ensures trips * (4 * tiles) + 4 * tiles == steps * (2 * tiles)
  {
    assert steps == 2 * (trips + 1);
    MixedRadix.Distributes(trips, 1, 4 * tiles);
    assert 2 * (trips + 1) * (2 * tiles) == (trips + 1) * (4 * tiles);
  }

  lemma FirstSteps(g: Geometry)
    requires g.Valid()
    ensures RequestsUpTo(g, 1) == StageRequests(g, 0)
    ensures RequestsUpTo(g, 2) == StageRequests(g, 0) + StageRequests(g, 1)
  {
    assert RequestsUpTo(g, 1) == StageRequests(g, 0);
  }

  /** What the loop leaves for the last two steps. */
  lemma AtEpilogue(g: Geometry, machine: Machine, init: seq<Value>, tripCount: nat, accs: seq<Value>,
                   current: StageState, lookahead: Value)
    requires g.Valid() && g.waveK == 2 && |init| == g.waveM * g.waveN && g.steps == tripCount + 1 >= 2
    requires AtIteration(g, machine.lds, machine.loads, machine.writes, init, g.steps, accs, current, lookahead)
    ensures g.waves > 0 && machine.writes == RequestsUpTo(g, tripCount + 1) && |accs| == |init|
    ensures current == LoadedStage(g, tripCount - 1, current.ready)
    ensures StageHolds(g, machine.lds, tripCount - 1, current.ready) && StageHolds(g, machine.lds, tripCount, lookahead)
    ensures KTiles(g, KTiles(g, accs, tripCount - 1, 2), tripCount, 2) == Contract(g, init, g.steps)
    ensures ReadUpTo(g, machine.loads, tripCount - 1) && UnreadFrom(machine.loads, tripCount)
    ensures LoadsOf(machine.loads, tripCount - 1)
            == StageLoads(g, tripCount - 1, current.ready, |RequestsUpTo(g, tripCount)|)
    ensures |RequestsUpTo(g, tripCount)| <= |RequestsUpTo(g, tripCount + 1)| <= |RequestsUpTo(g, tripCount + 2)|
  {
    hide Geometry.Valid, StageLoads, KTiles, LoadsOf, LoadedStage, RequestsUpTo, ReadUpTo, UnreadFrom, Contract,
         StageHolds;
    PositiveWaves(g);
    MoreIssued(g, tripCount);
    MoreIssued(g, tripCount + 1);
    TwoMoreSteps(g, init, tripCount + 1);
  }

  lemma TwoTilesMore(g: Geometry)
    ensures 2 * (g.waveM * g.waveN) + 2 * (g.waveM * g.waveN) == 4 * Tiles(g)
  {}

  /** The last MMAs of a step, with the second k-tile's reads that complete it. */
  method EndStep(g: Geometry, machine: Machine, step: nat, current: StageState, accs: seq<Value>, ghost first: nat)
    returns (out: seq<Value>)
    requires g.Valid() && g.waveK == 2 && g.waves > 0 && |accs| == g.waveM * g.waveN
    requires current == LoadedStage(g, step, current.ready) && StageHolds(g, machine.lds, step, current.ready)
    requires ReadUpTo(g, machine.loads, step) && UnreadFrom(machine.loads, step + 1)
    requires LoadsOf(machine.loads, step) == StageLoads(g, step, current.ready, first)
    requires first <= |machine.writes| <= |RequestsUpTo(g, step + 2)|
    modifies machine
    ensures out == KTiles(g, accs, step, 2)
    ensures machine.lds == old(machine.lds) && machine.writes == old(machine.writes)
    ensures ReadUpTo(g, machine.loads, step + 1) && UnreadFrom(machine.loads, step + 1)
    ensures machine.mmas == old(machine.mmas) + 2 * (g.waveM * g.waveN)
    ensures machine.stamps == old(machine.stamps) + StepStamps(g, old(machine.mmas), 0, g.waveM + g.waveN)
  {
    hide *;
    ghost var loads := machine.loads;
    out := EmitStageFinal(g, machine, step, current, accs);
    LastStepRead(g, loads, step, current.ready, first, |machine.writes|);
  }

  /** The first reads of a step whose stage is published. */
  method StartStep(g: Geometry, machine: Machine, step: nat, ready: Value) returns (state: StageState)
    requires g.Valid() && g.waves > 0 && StageHolds(g, machine.lds, step, ready)
    requires ReadUpTo(g, machine.loads, step) && UnreadFrom(machine.loads, step)
    modifies machine`loads, machine`stamps
    ensures state == LoadedStage(g, step, ready) && state.ready == ready
    ensures ReadUpTo(g, machine.loads, step) && UnreadFrom(machine.loads, step + 1)
    ensures LoadsOf(machine.loads, step) == StageLoads(g, step, ready, |machine.writes|)
    ensures machine.stamps == old(machine.stamps) + Stamps(machine.mmas, FullCount(g))
  {
    hide *;
    ghost var loads := machine.loads;
    state := ReadStageK0(g, machine, step, ready);
    StageReadyIs(g, step, ready);
    StageStarted(g, loads, step, ready, |machine.writes|);
  }

  /** The last two steps, with no stage left to fill. */
  method Epilogue(g: Geometry, machine: Machine, tripCount: nat, ghost init: seq<Value>, accs: seq<Value>,
                  current: StageState, lookahead: Value)
    returns (out: seq<Value>)
    requires g.Valid() && g.waveK == 2 && |init| == g.waveM * g.waveN && g.steps == tripCount + 1 >= 2
    requires AtIteration(g, machine.lds, machine.loads, machine.writes, init, g.steps, accs, current, lookahead)
    modifies machine
    ensures out == Contract(g, init, g.steps)
    ensures g.waves > 0 && machine.writes == old(machine.writes) == RequestsUpTo(g, g.steps)
    ensures ReadUpTo(g, machine.loads, g.steps) && UnreadFrom(machine.loads, g.steps)
    ensures machine.mmas == old(machine.mmas) + 4 * Tiles(g)
    ensures machine.stamps == old(machine.stamps) + EpilogueStamps(g, old(machine.mmas))
  {
    hide *;
    AtEpilogue(g, machine, init, tripCount, accs, current, lookahead);
    TwoTilesMore(g);
    ghost var stamps, mmas := machine.stamps, machine.mmas;
    out := EndStep(g, machine, tripCount - 1, current, accs, |RequestsUpTo(g, tripCount)|);
    ghost var stamps1 := machine.stamps;
    var state := StartStep(g, machine, tripCount, lookahead);
    ghost var stamps2 := machine.stamps;
    out := EndStep(g, machine, tripCount, state, out, |machine.writes|);
    EpilogueIs(g, mmas, stamps, stamps1, stamps2, machine.stamps);
  }

  lemma StageLoadsOnly(g: Geometry, ready: Value, issued: nat)
    ensures LoadsOf(StageLoads(g, 0, ready, issued), 0) == StageLoads(g, 0, ready, issued)
    ensures UnreadFrom(StageLoads(g, 0, ready, issued), 1)
    ensures [] + StageLoads(g, 0, ready, issued) == StageLoads(g, 0, ready, issued)
  {
    forall s: nat {
      LoadsOfUniform(StageLoads(g, 0, ready, issued), 0, s);
    }
  }

  /** Reading the second k-tile of `step` completes it. */
  lemma LastStepRead(g: Geometry, loads: seq<Read>, step: nat, ready: Value, first: nat, second: nat)
    requires g.waves > 0 && first <= second <= |RequestsUpTo(g, step + 2)|
    requires ReadUpTo(g, loads, step) && LoadsOf(loads, step) == StageLoads(g, step, ready, first)
    requires UnreadFrom(loads, step + 1)
    ensures var all := loads + KTileLoads(g, step, 1, ready, second);
            ReadUpTo(g, all, step + 1) && UnreadFrom(all, step + 1)
  {
    hide StageLoads, KTileLoads, LoadsOf, RequestsUpTo, StepRead, WholeStep;
    var all := loads + KTileLoads(g, step, 1, ready, second);
    forall s: nat
      ensures LoadsOf(all, s) == LoadsOf(loads, s) + if s == step then KTileLoads(g, s, 1, ready, second) else []
    {
      K1LoadsAppended(g, loads, step, ready, second, s);
    }
    forall s | 0 <= s < step + 1 ensures StepRead(g, all, s) {
      if s == step {
        FinishedStep(g, s, ready, first, second);
        StepIsRead(g, all, s, ready, first, second);
      } else {
        StillRead(g, loads, all, s);
      }
    }
  }

  lemma StageStarted(g: Geometry, loads: seq<Read>, step: nat, ready: Value, issued: nat)
    requires g.waves > 0 && ReadUpTo(g, loads, step) && UnreadFrom(loads, step)
    ensures var all := loads + StageLoads(g, step, ready, issued);
            && ReadUpTo(g, all, step) && LoadsOf(all, step) == StageLoads(g, step, ready, issued)
            && UnreadFrom(all, step + 1)
  {
    hide StageLoads, LoadsOf, RequestsUpTo, StepRead;
    var all := loads + StageLoads(g, step, ready, issued);
    forall s: nat
      ensures LoadsOf(all, s) == LoadsOf(loads, s) + if s == step then StageLoads(g, s, ready, issued) else []
    {
      StageLoadsAppended(g, loads, step, ready, issued, s);
    }
    forall s | 0 <= s < step ensures StepRead(g, all, s) {
      StillRead(g, loads, all, s);
    }
  }

  /** The plain loop and the pipeline read the same fragments and scales of a step, each once, in another order. */
  lemma SameReads(g: Geometry, step: nat, ready: Value, issued: nat)
    requires g.waveK == 2
    ensures multiset(SimpleLoads(g, step, ready, issued)) == multiset(WholeStep(g, step, ready, issued, issued))
  {
    hide DataLoads, AllScaleLoads, AllDataLoads;
    TwoTileLoads(g, DataA, step, ready, issued);
    TwoTileLoads(g, DataB, step, ready, issued);
    Interleaved(DataLoads(g, DataA, step, 0, ready, issued), DataLoads(g, DataA, step, 1, ready, issued),
                DataLoads(g, DataB, step, 0, ready, issued), DataLoads(g, DataB, step, 1, ready, issued),
                AllScaleLoads(g, step, ready, issued));
  }

  lemma TwoTileLoads(g: Geometry, b: Buffer, step: nat, ready: Value, issued: nat)
    ensures AllDataLoads(g, b, step, 2, ready, issued)
            == DataLoads(g, b, step, 0, ready, issued) + DataLoads(g, b, step, 1, ready, issued)
  {
    hide DataLoads;
    assert AllDataLoads(g, b, step, 1, ready, issued) == [] + DataLoads(g, b, step, 0, ready, issued);
  }

  lemma Interleaved<T>(a0: seq<T>, a1: seq<T>, b0: seq<T>, b1: seq<T>, s: seq<T>)
    ensures multiset((a0 + a1) + (b0 + b1) + s) == multiset((a0 + b0 + s) + (a1 + b1))
  {}

  /** The pipeline refines the simple loop: on fresh machines both return the same accumulators. */
  method PipelineRefinesSimpleLoop(g: Geometry, tripCount: nat, init: seq<Value>)
    returns (pipelined: seq<Value>, simple: seq<Value>)
    requires g.Valid() && g.tensileLite && tripCount + 1 == g.steps && |init| == g.waveM * g.waveN
    ensures pipelined == simple == Contract(g, init, g.steps)
  {
    hide Geometry.Valid;
    var first := new Machine(g.Cells());
    var trips: nat;
    pipelined, trips := Pipeline(g, first, tripCount, init);
    var second := new Machine(g.Cells());
    ghost var barriers;
    simple, barriers := SimpleKernel(g, second, tripCount, init);
  }

  // --------------------------------------------------- one accumulator at a time

  /** The first `count` MMAs of tile (i, j): MMA c is k-tile c % waveK of step c / waveK. */
  function Chain(g: Geometry, i: nat, j: nat, acc: Value, count: nat): Value
    requires g.waveK > 0
  {
    if count == 0 then acc
    else
      var step, k := (count - 1) / g.waveK, (count - 1) % g.waveK;
      StageMma(g, step, k, i, j, Chain(g, i, j, acc, count - 1))
  }

  /** Every accumulator of the contraction is its own chain, in K order, from one pair of row tiles. */
  lemma {:induction false} ContractIsChain(g: Geometry, init: seq<Value>, n: nat, i: nat, j: nat)
    requires g.Valid() && |init| == g.waveM * g.waveN && i < g.waveM && j < g.waveN
    ensures i * g.waveN + j < |init|
    ensures Contract(g, init, n)[i * g.waveN + j] == Chain(g, i, j, init[i * g.waveN + j], n * g.waveK)
  {
    hide Geometry.Valid, KTiles, StageMma;
    MixedRadix.Below(i, g.waveM, j, g.waveN);
    if n == 0 {
      assert 0 * g.waveK == 0;
    } else {
      ContractIsChain(g, init, n - 1, i, j);
      KTilesIsChain(g, init, n - 1, g.waveK, i, j);
      assert (n - 1) * g.waveK + g.waveK == n * g.waveK;
    }
  }

  lemma {:induction false} KTilesIsChain(g: Geometry, init: seq<Value>, step: nat, k: nat, i: nat, j: nat)
    requires g.Valid() && |init| == g.waveM * g.waveN && i < g.waveM && j < g.waveN && k <= g.waveK
    requires i * g.waveN + j < |init|
    requires Contract(g, init, step)[i * g.waveN + j] == Chain(g, i, j, init[i * g.waveN + j], step * g.waveK)
    ensures KTiles(g, Contract(g, init, step), step, k)[i * g.waveN + j]
            == Chain(g, i, j, init[i * g.waveN + j], step * g.waveK + k)
  {
    hide Geometry.Valid, KTile, StageMma, Contract;
    if k > 0 {
      KTilesIsChain(g, init, step, k - 1, i, j);
      MixedRadix.Split(step, k - 1, g.waveK);
      KTileAt(g, KTiles(g, Contract(g, init, step), step, k - 1), step, k - 1, i, j);
      assert (step * g.waveK + k) - 1 == step * g.waveK + (k - 1);
    }
  }
}
