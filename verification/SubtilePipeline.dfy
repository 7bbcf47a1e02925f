/**
 The generated kernel: the simple loop that runs `_step` once a K step, and the two-stage
 software pipeline that must compute the same accumulators.
 */
module SubtilePipeline {
  import MixedRadix
  import opened Prelude
  import opened SubtileMachine
  import opened SubtileStage
  import opened SubtileEmitters
  import opened SubtileOverlap

  // ----------------------------------------------------------- the simple loop

  /** Issues requests in order under fresh tokens. */
  method IssueRequests(machine: Machine, requests: seq<Request>) returns (tokens: seq<Value>)
    modifies machine
    ensures |tokens| == |requests| && machine.lds == IssueAll(old(machine.lds), requests, tokens)
    ensures machine.writes == old(machine.writes) + requests && machine.loads == old(machine.loads)
    ensures machine.mmas == old(machine.mmas)
    ensures machine.stamps == old(machine.stamps) + Stamps(machine.mmas, |requests|)
  {
    tokens := [];
    for i := 0 to |requests|
      invariant |tokens| == i && machine.lds == IssueAll(old(machine.lds), requests[..i], tokens)
      invariant machine.writes == old(machine.writes) + requests[..i] && machine.loads == old(machine.loads)
      invariant machine.mmas == old(machine.mmas) && machine.stamps == old(machine.stamps) + Stamps(machine.mmas, i)
    {
      var token := machine.Write(requests[i]);
      assert requests[..i + 1][..i] == requests[..i] && (tokens + [token])[..i] == tokens;
      tokens := tokens + [token];
    }
    assert requests[..|requests|] == requests;
  }

  /** `_stage_ready`: fills the stage of `step` and publishes it by one barrier over all its tokens. */
  method StageReady(g: Geometry, machine: Machine, step: nat) returns (ready: Value)
    requires g.Valid() && machine.lds.Keys == g.Cells()
    modifies machine
    ensures StageHolds(g, machine.lds, step, ready) && OtherStageKept(old(machine.lds), machine.lds, step)
    ensures machine.writes == old(machine.writes) + StageRequests(g, step) && machine.loads == old(machine.loads)
    ensures machine.mmas == old(machine.mmas)
    ensures machine.stamps == old(machine.stamps) + Stamps(machine.mmas, |StageRequests(g, step)|)
  {
    var tokens := IssueRequests(machine, StageRequests(g, step));
    ready := machine.Barrier(tokens);
    Restaged(g, old(machine.lds), step, tokens, ready);
  }

  /** Fragments of k-tiles 0 .. k-1 of one operand, k-major. */
  function AllFrags(g: Geometry, b: Buffer, step: nat, k: nat): (r: seq<Value>)
    ensures |r| == k * g.WaveTiles(b)
  {
    if k == 0 then [] else AllFrags(g, b, step, k - 1) + Frags(g, b, step, k - 1)
  }

  lemma {:induction false} AllFragsAt(g: Geometry, b: Buffer, step: nat, n: nat, k: nat, i: nat)
    requires k < n && i < g.WaveTiles(b)
    ensures k * g.WaveTiles(b) + i < |AllFrags(g, b, step, n)|
    ensures AllFrags(g, b, step, n)[k * g.WaveTiles(b) + i] == Loaded(b, ReadSlot(g, b, k, i), step)
  {
    MixedRadix.Below(k, n, i, g.WaveTiles(b));
    if k < n - 1 {
      AllFragsAt(g, b, step, n - 1, k, i);
    }
  }

  /** Loads of k-tiles 0 .. k-1 of one operand, k-major, each observing its own fragment. */
  function AllDataLoads(g: Geometry, b: Buffer, step: nat, k: nat, ready: Value, issued: nat): seq<Read> {
    if k == 0 then [] else AllDataLoads(g, b, step, k - 1, ready, issued) + DataLoads(g, b, step, k - 1, ready, issued)
  }

  /** Reads of a whole step of the plain loop. */
  function SimpleLoads(g: Geometry, step: nat, ready: Value, issued: nat): seq<Read> {
    AllDataLoads(g, DataA, step, g.waveK, ready, issued) + AllDataLoads(g, DataB, step, g.waveK, ready, issued)
    + AllScaleLoads(g, step, ready, issued)
  }

  lemma NoTiles(g: Geometry, b: Buffer, step: nat, ready: Value, issued: nat)
    ensures AllFrags(g, b, step, 0) == [] && AllDataLoads(g, b, step, 0, ready, issued) == []
  {}

  lemma OneMoreTile(g: Geometry, b: Buffer, step: nat, k: nat, ready: Value, issued: nat)
    ensures AllFrags(g, b, step, k + 1) == AllFrags(g, b, step, k) + Frags(g, b, step, k)
    ensures AllDataLoads(g, b, step, k + 1, ready, issued)
            == AllDataLoads(g, b, step, k, ready, issued) + DataLoads(g, b, step, k, ready, issued)
  {}

  method ReadAllFrags(g: Geometry, machine: Machine, b: Buffer, step: nat, ready: Value) returns (frags: seq<Value>)
    requires g.Valid() && IsData(b) && StageHolds(g, machine.lds, step, ready)
    modifies machine`loads, machine`stamps
    ensures frags == AllFrags(g, b, step, g.waveK)
    ensures machine.loads == old(machine.loads) + AllDataLoads(g, b, step, g.waveK, ready, |machine.writes|)
  {
    NoTiles(g, b, step, ready, |machine.writes|);
    hide Geometry.Valid, DataLoads, AllDataLoads, AllFrags, Frags, StageHolds;
    frags := [];
    for k := 0 to g.waveK
      invariant frags == AllFrags(g, b, step, k)
      invariant machine.loads == old(machine.loads) + AllDataLoads(g, b, step, k, ready, |machine.writes|)
    {
      var tile := ReadFrags(g, machine, b, step, k, ready);
      OneMoreTile(g, b, step, k, ready, |machine.writes|);
      Joined(old(machine.loads), AllDataLoads(g, b, step, k, ready, |machine.writes|),
             DataLoads(g, b, step, k, ready, |machine.writes|));
      frags := frags + tile;
    }
  }

  /** `_emit_mma_step`: every k-tile of a step, accumulators updated in place. */
  method EmitMmaStep(g: Geometry, machine: Machine, accs: seq<Value>, step: nat, a: seq<Value>, b: seq<Value>,
                     aScales: seq<Value>, bScales: seq<Value>)
    returns (out: seq<Value>)
    requires g.Valid() && |accs| == g.waveM * g.waveN
    requires a == AllFrags(g, DataA, step, g.waveK) && b == AllFrags(g, DataB, step, g.waveK)
    requires aScales == Scales(g, ScaleA, step) && bScales == Scales(g, ScaleB, step)
    modifies machine`mmas
    ensures out == KTiles(g, accs, step, g.waveK)
    ensures machine.mmas == old(machine.mmas) + g.waveK * (g.waveM * g.waveN)
  {
    hide Geometry.Valid, MmaTile, KTile;
    out := accs;
    ghost var issued := 0;
    for k := 0 to g.waveK
      invariant out == KTiles(g, accs, step, k)
      invariant issued == k * (g.waveM * g.waveN) && machine.mmas == old(machine.mmas) + issued
    {
      MixedRadix.Distributes(k, 1, g.waveM * g.waveN);
      issued := issued + g.waveM * g.waveN;
      out := EmitStepKTile(g, machine, out, step, k, a, b, aScales, bScales);
    }
  }

  /** One iteration of the outer loop of `_emit_mma_step`. */
  method EmitStepKTile(g: Geometry, machine: Machine, accs: seq<Value>, step: nat, k: nat, a: seq<Value>, b: seq<Value>,
                       aScales: seq<Value>, bScales: seq<Value>)
    returns (out: seq<Value>)
    requires g.Valid() && k < g.waveK && |accs| == g.waveM * g.waveN
    requires a == AllFrags(g, DataA, step, g.waveK) && b == AllFrags(g, DataB, step, g.waveK)
    requires aScales == Scales(g, ScaleA, step) && bScales == Scales(g, ScaleB, step)
    modifies machine`mmas
    ensures out == KTile(g, accs, step, k)
    ensures machine.mmas == old(machine.mmas) + g.waveM * g.waveN
  {
    hide Geometry.Valid, AllFrags, KTile, Scales, ScaleGroup, ScaleFirst, ReadSlot;
    out := accs;
    ghost var spec := KTile(g, accs, step, k);
    var issued := 0;
    for i := 0 to g.waveM
      invariant issued == i * g.waveN && machine.mmas == old(machine.mmas) + issued
      invariant Updated(accs, spec, out, issued)
    {
      var aFrag := FragAt(g, DataA, step, k, i, a);
      var aScale := ScaleOf(g, ScaleA, step, k, i, aScales);
      var aSel := i % 2 + 2 * (k % 2);
      for j := 0 to g.waveN
        invariant issued == i * g.waveN + j && machine.mmas == old(machine.mmas) + issued
        invariant Updated(accs, spec, out, issued)
      {
        var bFrag := FragAt(g, DataB, step, k, j, b);
        var bScale := ScaleOf(g, ScaleB, step, k, j, bScales);
        var bSel := j % 2 + 2 * (k % 2);
        KTileAt(g, accs, step, k, i, j);
        var acc := i * g.waveN + j;
        var v := machine.IssueMma(aFrag, aScale, aSel, bFrag, bScale, bSel, out[acc]);
        out := out[acc := v];
        issued := issued + 1;
      }
      assert issued == (i + 1) * g.waveN;
    }
  }

  /** The fragment `_emit_mma_step` picks for tile `i` of k-tile `k`. */
  method FragAt(g: Geometry, b: Buffer, step: nat, k: nat, i: nat, frags: seq<Value>) returns (frag: Value)
    requires k < g.waveK && i < g.WaveTiles(b) && frags == AllFrags(g, b, step, g.waveK)
    ensures frag == Loaded(b, ReadSlot(g, b, k, i), step)
  {
    hide AllFrags, ReadSlot;
    AllFragsAt(g, b, step, g.waveK, k, i);
    frag := frags[k * g.WaveTiles(b) + i];
  }

  /** The scale dword it picks, by group number. */
  method ScaleOf(g: Geometry, b: Buffer, step: nat, k: nat, i: nat, scales: seq<Value>) returns (scale: Value)
    requires g.Valid() && !IsData(b) && k < g.waveK && i < g.WaveTiles(b) && scales == Scales(g, b, step)
    ensures scale == Loaded(b, ScaleFirst(g, b, ScaleGroup(g, i, k)), step)
  {
    ScaleGroupInRange(g, if b.ScaleA? then i else 0, if b.ScaleA? then 0 else i, k);
    hide Geometry.Valid, Scales, ScaleFirst;
    ScaleAt(g, b, step, ScaleGroup(g, i, k));
    scale := scales[(i / 2) * (g.waveK / 2) + k / 2];
  }

  lemma ScaleAt(g: Geometry, b: Buffer, step: nat, group: nat)
    requires group < g.Groups(b)
    ensures |Scales(g, b, step)| == g.Groups(b)
    ensures Scales(g, b, step)[group] == Loaded(b, ScaleFirst(g, b, group), step)
  {}

  /** `_step`; `ready` is the barrier its reads wait on. */
  method Step(g: Geometry, machine: Machine, step: nat, accs: seq<Value>) returns (out: seq<Value>, ghost ready: Value)
    requires g.Valid() && machine.lds.Keys == g.Cells() && |accs| == g.waveM * g.waveN
    modifies machine
    ensures machine.lds.Keys == g.Cells()
    ensures machine.writes == old(machine.writes) + StageRequests(g, step)
    ensures machine.loads == old(machine.loads) + SimpleLoads(g, step, ready, |machine.writes|)
    ensures out == KTiles(g, accs, step, g.waveK)
    ensures machine.mmas == old(machine.mmas) + g.waveK * (g.waveM * g.waveN)
  {
    hide Geometry.Valid, AllDataLoads, AllScaleLoads, AllFrags, Scales;
    var barrier := StageReady(g, machine, step);
    var a := ReadAllFrags(g, machine, DataA, step, barrier);
    var b := ReadAllFrags(g, machine, DataB, step, barrier);
    var aScales, bScales := ReadScaleGroups(g, machine, step, barrier);
    ready := barrier;
    out := EmitMmaStep(g, machine, accs, step, a, b, aScales, bScales);
  }

  /**
   Reads of the plain loop, step by step: each step under its own barrier, when its own requests and
   no later ones have been issued.
   */
  function SimpleLoadsUpTo(g: Geometry, base: nat, barriers: seq<Value>): seq<Read>
    requires g.waves > 0
  {
    if barriers == [] then []
    else
      var n := |barriers| - 1;
      SimpleLoadsUpTo(g, base, barriers[..n]) + SimpleLoads(g, n, barriers[n], base + |RequestsUpTo(g, n + 1)|)
  }

  /** What the plain loop has issued and read once the steps of `barriers` have run. */
  ghost predicate HasRun(g: Geometry, writes0: seq<Request>, loads0: seq<Read>, barriers: seq<Value>,
                         writes: seq<Request>, loads: seq<Read>)
    requires g.waves > 0
  {
    && writes == writes0 + RequestsUpTo(g, |barriers|)
    && loads == loads0 + SimpleLoadsUpTo(g, |writes0|, barriers)
  }

  lemma OneMoreStep(g: Geometry, writes0: seq<Request>, loads0: seq<Read>, barriers: seq<Value>,
                    writes: seq<Request>, loads: seq<Read>, ready: Value)
    requires g.waves > 0 && HasRun(g, writes0, loads0, barriers, writes, loads)
    ensures var all := writes + StageRequests(g, |barriers|);
            HasRun(g, writes0, loads0, barriers + [ready], all, loads + SimpleLoads(g, |barriers|, ready, |all|))
  {
    hide StageRequests, SimpleLoads;
    var n := |barriers|;
    var all := writes + StageRequests(g, n);
    assert (barriers + [ready])[..n] == barriers;
    Joined(writes0, RequestsUpTo(g, n), StageRequests(g, n));
    Joined(loads0, SimpleLoadsUpTo(g, |writes0|, barriers), SimpleLoads(g, n, ready, |all|));
  }

  lemma NoSteps(g: Geometry, accs: seq<Value>, writes: seq<Request>, loads: seq<Read>)
    requires g.Valid() && g.waves > 0 && |accs| == g.waveM * g.waveN
    ensures Contract(g, accs, 0) == accs && HasRun(g, writes, loads, [], writes, loads)
  {}

  lemma ContractStep(g: Geometry, accs: seq<Value>, step: nat)
    requires g.Valid() && |accs| == g.waveM * g.waveN
    ensures Contract(g, accs, step + 1) == KTiles(g, Contract(g, accs, step), step, g.waveK)
  {}

  /** The loop of `_emit_kernel` for canonical scales; `upper` is the kernel argument plus one. */
  method SimpleKernel(g: Geometry, machine: Machine, tripCount: nat, accs: seq<Value>)
    returns (out: seq<Value>, ghost barriers: seq<Value>)
    requires g.Valid() && machine.lds.Keys == g.Cells() && |accs| == g.waveM * g.waveN
    requires tripCount + 1 == g.steps
    modifies machine
    ensures out == Contract(g, accs, g.steps) && |barriers| == g.steps
    ensures HasRun(g, old(machine.writes), old(machine.loads), barriers, machine.writes, machine.loads)
  {
    assert g.waves > 0;
    hide *;
    out, barriers := accs, [];
    NoSteps(g, accs, machine.writes, machine.loads);
    for step := 0 to tripCount + 1
      invariant machine.lds.Keys == g.Cells()
      invariant out == Contract(g, accs, step) && |barriers| == step
      invariant HasRun(g, old(machine.writes), old(machine.loads), barriers, machine.writes, machine.loads)
    {
      ghost var writes, loads, ready := machine.writes, machine.loads, Garbage;
      out, ready := Step(g, machine, step, out);
      ContractStep(g, accs, step);
      OneMoreStep(g, old(machine.writes), old(machine.loads), barriers, writes, loads, ready);
      barriers := barriers + [ready];
    }
  }

  // --------------------------------------------------------------- the pipeline

  lemma TwoTiles(g: Geometry, accs: seq<Value>, step: nat)
    requires g.Valid() && g.waveK == 2 && |accs| == g.waveM * g.waveN
    ensures KTiles(g, accs, step, 2) ==
            MmaTile(g, MmaTile(g, accs, StageOperands(g, step, 0), 0), StageOperands(g, step, 1), 1)
  {
    hide MmaTile;
    assert KTiles(g, accs, step, 1) == KTile(g, KTiles(g, accs, step, 0), step, 0);
  }

  lemma FullStamps(g: Geometry, before: seq<nat>, at: nat)
    ensures before + Stamps(at, g.waveM) + Stamps(at, g.waveN) + Stamps(at, g.aGroups + g.bGroups)
            == before + Stamps(at, FullCount(g))
  {}

  /**
   The MMAs issued before each read and request of a step whose first k-tile carries them: `requests` requests,
   `count` operations in all.
   */
  function StepStamps(g: Geometry, mmas: nat, requests: nat, count: nat): seq<nat> {
    Schedule(mmas, g.waveM * g.waveN, g.waveM + g.waveN + requests + g.waveM + g.waveN, count)
  }

  /** `_read_stage_k0` */
  method ReadStageK0(g: Geometry, machine: Machine, step: nat, ready: Value) returns (state: StageState)
    requires g.Valid() && StageHolds(g, machine.lds, step, ready)
    modifies machine`loads, machine`stamps
    ensures state == LoadedStage(g, step, ready)
    ensures machine.loads == old(machine.loads) + StageLoads(g, step, ready, |machine.writes|)
    ensures machine.stamps == old(machine.stamps) + Stamps(machine.mmas, FullCount(g))
  {
    hide DataLoads, AllScaleLoads, StageLoads, Frags, Scales, StageHolds, Stamps;
    StageLoadsInOrder(g, machine.loads, step, ready, |machine.writes|);
    FullStamps(g, machine.stamps, machine.mmas);
    var a := ReadFrags(g, machine, DataA, step, 0, ready);
    var b := ReadFrags(g, machine, DataB, step, 0, ready);
    var aScales, bScales := ReadScaleGroups(g, machine, step, ready);
    state := StageState(ready, a, b, aScales, bScales);
  }

  /** `_emit_stage_final`: the last MMAs of a step whose stage nothing refills. */
  method EmitStageFinal(g: Geometry, machine: Machine, step: nat, current: StageState, accs: seq<Value>)
    returns (out: seq<Value>)
    requires g.Valid() && g.waveK == 2 && |accs| == g.waveM * g.waveN
    requires current == LoadedStage(g, step, current.ready) && StageHolds(g, machine.lds, step, current.ready)
    modifies machine
    ensures out == KTiles(g, accs, step, 2)
    ensures machine.lds == old(machine.lds) && machine.writes == old(machine.writes)
    ensures machine.loads == old(machine.loads) + KTileLoads(g, step, 1, current.ready, |old(machine.writes)|)
    ensures machine.mmas == old(machine.mmas) + 2 * (g.waveM * g.waveN)
    ensures machine.stamps == old(machine.stamps) + StepStamps(g, old(machine.mmas), 0, g.waveM + g.waveN)
  {
    hide Geometry.Valid, MmaTile, Schedule, KTileLoads, StageHolds, Frags, Scales;
    var overlap := new Overlap(g, machine, step, current.ready, ReadsOnly, step);
    var k0 := Operands(current.aFrags, current.bFrags, current.aScales, current.bScales);
    out := EmitMmaKTile(g, machine, accs, k0, 0, overlap);
    overlap.FinishLocal();
    var k1 := Operands(overlap.aK1, overlap.bK1, current.aScales, current.bScales);
    out := EmitMmaKTile(g, machine, out, k1, 1, null);
    TwoTiles(g, accs, step);
  }

  /** `_emit_stage_with_next`: finishes `step` while its stage is refilled with step + 2 and read. */
  method EmitStageWithNext(g: Geometry, machine: Machine, step: nat, current: StageState, accs: seq<Value>)
    returns (out: seq<Value>, next: StageState)
    requires g.Valid() && g.waveK == 2 && |accs| == g.waveM * g.waveN
    requires current == LoadedStage(g, step, current.ready) && StageHolds(g, machine.lds, step, current.ready)
    modifies machine
    ensures out == KTiles(g, accs, step, 2)
    ensures next == LoadedStage(g, step + 2, next.ready) && StageHolds(g, machine.lds, step + 2, next.ready)
    ensures OtherStageKept(old(machine.lds), machine.lds, step)
    ensures machine.writes == old(machine.writes) + StageRequests(g, step + 2)
    ensures machine.loads == old(machine.loads) + KTileLoads(g, step, 1, current.ready, |old(machine.writes)|)
                             + StageLoads(g, step + 2, next.ready, |machine.writes|)
    ensures machine.mmas == old(machine.mmas) + 2 * (g.waveM * g.waveN)
    ensures var requests := |StageRequests(g, step + 2)|;
            machine.stamps == old(machine.stamps)
                              + StepStamps(g, old(machine.mmas), requests, g.waveM + g.waveN + requests + FullCount(g))
  {
    hide Geometry.Valid, MmaTile, Overlap.Valid, Schedule, StageRequests, KTileLoads, StageLoads, StageHolds, Frags,
         Scales, OtherStageKept, FullCount;
    var overlap := new Overlap(g, machine, step, current.ready, ReadsThenDmaThenNext, step + 2);
    var k0 := Operands(current.aFrags, current.bFrags, current.aScales, current.bScales);
    out := EmitMmaKTile(g, machine, accs, k0, 0, overlap);
    overlap.FinishLocal();
    next := overlap.FinishNext();
    var k1 := Operands(overlap.aK1, overlap.bK1, current.aScales, current.bScales);
    out := EmitMmaKTile(g, machine, out, k1, 1, null);
    TwoTiles(g, accs, step);
  }

  /** `_emit_stage_with_next_ready` */
  method EmitStageWithNextReady(g: Geometry, machine: Machine, step: nat, current: StageState, accs: seq<Value>)
    returns (out: seq<Value>, nextReady: Value)
    requires g.Valid() && g.waveK == 2 && |accs| == g.waveM * g.waveN
    requires current == LoadedStage(g, step, current.ready) && StageHolds(g, machine.lds, step, current.ready)
    modifies machine
    ensures out == KTiles(g, accs, step, 2)
    ensures StageHolds(g, machine.lds, step + 2, nextReady) && OtherStageKept(old(machine.lds), machine.lds, step)
    ensures machine.writes == old(machine.writes) + StageRequests(g, step + 2)
    ensures machine.loads == old(machine.loads) + KTileLoads(g, step, 1, current.ready, |old(machine.writes)|)
    ensures machine.mmas == old(machine.mmas) + 2 * (g.waveM * g.waveN)
    ensures var requests := |StageRequests(g, step + 2)|;
            machine.stamps == old(machine.stamps)
                              + StepStamps(g, old(machine.mmas), requests, g.waveM + g.waveN + requests)
  {
    hide Geometry.Valid, MmaTile, Overlap.Valid, Schedule, StageRequests, KTileLoads, StageLoads, StageHolds, Frags,
         Scales, OtherStageKept, FullCount;
    var overlap := new Overlap(g, machine, step, current.ready, ReadsThenDma, step + 2);
    var k0 := Operands(current.aFrags, current.bFrags, current.aScales, current.bScales);
    out := EmitMmaKTile(g, machine, accs, k0, 0, overlap);
    overlap.FinishLocal();
    nextReady := overlap.FinishReady();
    var k1 := Operands(overlap.aK1, overlap.bK1, current.aScales, current.bScales);
    out := EmitMmaKTile(g, machine, out, k1, 1, null);
    TwoTiles(g, accs, step);
  }
}
