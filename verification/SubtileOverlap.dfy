/**
 The second k-tile of the current stage, the DMA of the stage that replaces it, and the first
 reads of that stage, issued one at a time behind the MMAs of the first k-tile.
 */
module SubtileOverlap {
  import opened Prelude
  import opened SubtileMachine
  import opened SubtileStage
  import opened SubtileEmitters

  /** What the callback of a stage does: final, lookahead or current stage of the main loop. */
  datatype Mode = ReadsOnly | ReadsThenDma | ReadsThenDmaThenNext

  function Min(a: nat, b: nat): nat { if a < b then a else b }

  /**
   The MMAs issued before operation `q` of an overlapped step that began after `base` of them: one operation goes
   out behind each of the `tiles` MMAs of the first k-tile, all scale reads behind one (callback `last`), and what
   is left after the last of them.
   */
  function Due(base: nat, tiles: nat, last: nat, q: nat): nat { base + Min(Min(q, last) + 1, tiles) }

  function Schedule(base: nat, tiles: nat, last: nat, count: nat): seq<nat> {
    seq(count, q requires q >= 0 => Due(base, tiles, last, q))
  }

  lemma NothingDue(base: nat, tiles: nat, last: nat)
    ensures Schedule(base, tiles, last, 0) == []
  {}

  lemma DueOnCallback(base: nat, tiles: nat, last: nat, n: nat)
    requires 0 < n <= tiles && n - 1 <= last
    ensures Due(base, tiles, last, n - 1) == base + n
  {}

  lemma DueLate(base: nat, tiles: nat, last: nat, q: nat)
    requires Min(q, last) + 1 >= tiles
    ensures Due(base, tiles, last, q) == base + tiles
  {}

  lemma DueWithLast(base: nat, tiles: nat, last: nat, q: nat)
    requires q >= last
    ensures Due(base, tiles, last, q) == Due(base, tiles, last, last)
  {}

  /** Operations issued when they are due keep to the schedule. */
  lemma KeepsSchedule(before: seq<nat>, base: nat, tiles: nat, last: nat, count: nat, more: nat, at: nat)
    requires forall q | count <= q < count + more :: Due(base, tiles, last, q) == at
    ensures before + Schedule(base, tiles, last, count) + Stamps(at, more)
            == before + Schedule(base, tiles, last, count + more)
  {
    hide Due;
    assert Schedule(base, tiles, last, count) + Stamps(at, more) == Schedule(base, tiles, last, count + more);
  }

  class Overlap {
    const g: Geometry
    const machine: Machine
    const step: nat
    const ready: Value
    const mode: Mode
    const nextStep: nat
    const dma: DmaEmitter
    var aRead: nat
    var bRead: nat
    var aK1: seq<Value>
    var bK1: seq<Value>
    var nextReads: StageReadEmitter?
    ghost const before: seq<Read>
    ghost const firstMma: nat
    ghost const stampsBefore: seq<nat>

    /** Reads and requests issued so far. */
    ghost function Count(): nat
      reads this, dma, nextReads
    {
      aRead + bRead + dma.index + if nextReads == null then 0 else nextReads.Count()
    }

    /** Calls that have issued something: a read, a request, or the scales of the next stage together. */
    ghost function Progress(): nat
      reads this, dma, nextReads
    {
      aRead + bRead + dma.index + if nextReads == null then 0 else nextReads.Calls()
    }

    /** How many of them the mode asks for. */
    ghost function Total(): nat {
      g.waveM + g.waveN + |dma.requests| + (if mode.ReadsThenDmaThenNext? then g.waveM + g.waveN + 1 else 0)
    }

    ghost function Tiles(): nat { g.waveM * g.waveN }

    /** The callback that reads the scales of the next stage. */
    ghost function LastCall(): nat { g.waveM + g.waveN + |dma.requests| + g.waveM + g.waveN }

    /** What has been issued went out when it was due. */
    ghost predicate OnSchedule()
      reads this, machine`stamps, dma, nextReads
    {
      machine.stamps == stampsBefore + Schedule(firstMma, Tiles(), LastCall(), Count())
    }

    /** The next operation, if there is one, is due now. */
    ghost predicate DueNow()
      reads this, machine`mmas, dma, nextReads
    {
      Progress() < Total() ==> machine.mmas == Due(firstMma, Tiles(), LastCall(), Progress())
    }

    /** Every MMA of the first k-tile is out, and an operation behind each while there were any. */
    ghost predicate Caught()
      reads this, machine`mmas, dma, nextReads
    {
      machine.mmas == firstMma + Tiles() && (Progress() >= Tiles() || Progress() == Total())
    }

    ghost predicate LocalDone()
      reads this
    {
      aRead == g.waveM && bRead == g.waveN
    }

    ghost predicate Valid()
      reads this, machine`lds, machine`loads, machine`writes, machine`stamps, dma, nextReads
    {
      && OnSchedule()
      && g.Valid() && g.waveK == 2
      && dma.machine == machine
      && StageHolds(g, dma.base, step, ready)
      && aRead <= g.waveM && bRead <= g.waveN && (bRead > 0 ==> aRead == g.waveM)
      && aK1 == Frags(g, DataA, step, 1)[..aRead]
      && bK1 == Frags(g, DataB, step, 1)[..bRead]
      && (mode.ReadsOnly? ==> dma.requests == [])
      && (!mode.ReadsOnly? ==> nextStep % 2 == step % 2 && dma.requests == StageRequests(g, nextStep))
      && (dma.index > 0 ==> LocalDone())
      && if nextReads == null then
           && dma.Valid()
           && machine.loads == before + KTileLoads(g, step, 1, ready, |dma.before|)[..aRead + bRead]
         else
           && mode.ReadsThenDmaThenNext? && LocalDone() && dma.index == |dma.requests|
           && machine.writes == dma.before + dma.requests
           && nextReads.Valid() && nextReads.g == g && nextReads.machine == machine && nextReads.step == nextStep
           && StageHolds(g, machine.lds, nextStep, nextReads.ready)
           && OtherStageKept(dma.base, machine.lds, step)
           && nextReads.issued == |machine.writes|
           && machine.loads == before + KTileLoads(g, step, 1, ready, |dma.before|) + nextReads.Emitted()
    }

    constructor (g: Geometry, machine: Machine, step: nat, ready: Value, mode: Mode, nextStep: nat)
      requires g.Valid() && g.waveK == 2 && StageHolds(g, machine.lds, step, ready)
      requires !mode.ReadsOnly? ==> nextStep % 2 == step % 2
      ensures this.g == g && this.machine == machine && this.step == step && this.ready == ready
      ensures this.mode == mode && this.nextStep == nextStep
      ensures Valid() && fresh(dma) && nextReads == null
      ensures before == machine.loads && dma.before == machine.writes && dma.base == machine.lds
      ensures firstMma == machine.mmas && stampsBefore == machine.stamps && Progress() == 0
      ensures |dma.requests| == if mode.ReadsOnly? then 0 else |StageRequests(g, nextStep)|
    {
      this.g := g;
      this.machine := machine;
      this.step := step;
      this.ready := ready;
      this.mode := mode;
      this.nextStep := nextStep;
      var requests := if mode.ReadsOnly? then [] else StageRequests(g, nextStep);
      var emitter := new DmaEmitter(machine, requests);
      dma := emitter;
      aRead, bRead, aK1, bK1, nextReads := 0, 0, [], [], null;
      before := machine.loads;
      firstMma := machine.mmas;
      stampsBefore := machine.stamps;
      new;
      NothingDue(firstMma, Tiles(), LastCall());
    }

    lemma CaughtIsDue()
      requires Caught() && Progress() <= Total()
      ensures DueNow()
    {
      if Progress() < Total() {
        DueLate(firstMma, Tiles(), LastCall(), Progress());
      }
    }

    method ReadA()
      requires Valid() && DueNow() && aRead < g.waveM
      modifies this`aRead, this`aK1, machine`loads, machine`stamps
      ensures Valid() && aRead == old(aRead) + 1
    {
      hide Geometry.Valid, KTileLoads, StageRequests, OtherStageKept, StageHolds, DataLoads, Frags, Due, Schedule,
           Stamps;
      KeepsSchedule(stampsBefore, firstMma, Tiles(), LastCall(), Count(), 1, machine.mmas);
      NextFrag(g, DataA, step, 1, aRead);
      NextALoad(g, step, 1, ready, |dma.before|, aRead);
      var v := LoadFrag(g, machine, DataA, step, 1, aRead, ready);
      aK1 := aK1 + [v];
      aRead := aRead + 1;
    }

    method ReadB()
      requires Valid() && DueNow() && aRead == g.waveM && bRead < g.waveN
      modifies this`bRead, this`bK1, machine`loads, machine`stamps
      ensures Valid() && bRead == old(bRead) + 1
    {
      hide Geometry.Valid, KTileLoads, StageRequests, OtherStageKept, StageHolds, DataLoads, Frags, Due, Schedule,
           Stamps;
      KeepsSchedule(stampsBefore, firstMma, Tiles(), LastCall(), Count(), 1, machine.mmas);
      NextFrag(g, DataB, step, 1, bRead);
      NextBLoad(g, step, 1, ready, |dma.before|, bRead);
      var v := LoadFrag(g, machine, DataB, step, 1, bRead, ready);
      bK1 := bK1 + [v];
      bRead := bRead + 1;
    }

    /** `read_next_local`: one fragment of the current stage's second k-tile. */
    method ReadNextLocal() returns (emitted: bool)
      requires Valid() && DueNow()
      modifies this`aRead, this`bRead, this`aK1, this`bK1, machine`loads, machine`stamps
      ensures Valid() && emitted == !old(LocalDone())
      ensures emitted ==> aRead + bRead == old(aRead + bRead) + 1
      ensures Progress() == old(Progress()) + if emitted then 1 else 0
      ensures if emitted then Progress() <= Total() else DueNow()
      ensures !emitted && mode.ReadsOnly? ==> Progress() == Total()
      ensures !emitted ==> aRead == old(aRead) && bRead == old(bRead)
    {
      hide Geometry.Valid, KTileLoads, StageRequests, OtherStageKept, StageHolds, Frags, Due, OnSchedule;
      if aRead < g.waveM {
        ReadA();
        return true;
      }
      if bRead < g.waveN {
        ReadB();
        return true;
      }
      return false;
    }

    /** The barrier over every DMA token of the next stage, and the emitter of its first reads. */
    method PublishNext()
      requires Valid() && mode.ReadsThenDmaThenNext? && LocalDone()
      requires nextReads == null && dma.index == |dma.requests|
      modifies this`nextReads, machine
      ensures Valid() && LocalDone() && fresh(nextReads) && nextReads.Calls() == 0
      ensures machine.mmas == old(machine.mmas) && Progress() == old(Progress())
    {
      hide Geometry.Valid, KTileLoads, StageRequests, Frags, Due, Schedule;
      assert dma.requests[..dma.index] == dma.requests;
      var nextReady := machine.Barrier(dma.tokens);
      Restaged(g, dma.base, nextStep, dma.tokens, nextReady);
      nextReads := new StageReadEmitter(g, machine, nextStep, nextReady);
    }

    /** One DMA of the next stage; by then every local read has been issued. */
    method IssueNext() returns (emitted: bool)
      requires Valid() && LocalDone() && nextReads == null && DueNow()
      modifies machine, dma
      ensures Valid() && machine.mmas == old(machine.mmas)
      ensures emitted == (old(dma.index) < |dma.requests|)
      ensures dma.index == old(dma.index) + if emitted then 1 else 0
      ensures Progress() == old(Progress()) + if emitted then 1 else 0
      ensures if emitted then Progress() <= Total() else DueNow()
      ensures !emitted && mode.ReadsThenDma? ==> Progress() == Total()
    {
      hide Geometry.Valid, Due, Schedule, Stamps, IssueAll;
      StampsJoin(machine.mmas, 0, 0);
      if dma.index < |dma.requests| {
        KeepsSchedule(stampsBefore, firstMma, Tiles(), LastCall(), Count(), 1, machine.mmas);
      }
      emitted := dma.EmitOne();
    }

    method ReadNext()
      requires Valid() && nextReads != null && DueNow()
      modifies machine`loads, machine`stamps, nextReads
      ensures Valid()
      ensures nextReads.Calls() == old(nextReads.Calls()) + if old(nextReads.Done()) then 0 else 1
    {
      hide Geometry.Valid, KTileLoads, StageHolds, OtherStageKept, StageRequests, Frags, StageReadEmitter.Emitted,
           IssueAll, Due, Schedule, Stamps;
      ghost var sofar, base := nextReads.Emitted(), before + KTileLoads(g, step, 1, ready, |dma.before|);
      ReadsDue();
      var _ := nextReads.EmitOne();
      Continued(base, [], sofar, nextReads.Emitted());
    }

    /** The reads of one call on the next stage's reader are all due when its first is. */
    lemma ReadsDue()
      requires Valid() && nextReads != null && DueNow()
      ensures var more := if nextReads.Done() then 0
                          else if nextReads.Calls() < g.waveM + g.waveN then 1 else g.aGroups + g.bGroups;
              stampsBefore + Schedule(firstMma, Tiles(), LastCall(), Count()) + Stamps(machine.mmas, more)
              == stampsBefore + Schedule(firstMma, Tiles(), LastCall(), Count() + more)
    {
      hide Geometry.Valid, KTileLoads, StageHolds, OtherStageKept, StageRequests, Frags, StageReadEmitter.Emitted,
           IssueAll, Due, Schedule, Stamps;
      var more := if nextReads.Done() then 0
                  else if nextReads.Calls() < g.waveM + g.waveN then 1 else g.aGroups + g.bGroups;
      if nextReads.Calls() == g.waveM + g.waveN {
        forall q | Count() <= q < Count() + more ensures Due(firstMma, Tiles(), LastCall(), q) == machine.mmas {
          DueWithLast(firstMma, Tiles(), LastCall(), q);
        }
      }
      KeepsSchedule(stampsBefore, firstMma, Tiles(), LastCall(), Count(), more, machine.mmas);
    }

    /** `read_next_stage` */
    method ReadNextStage()
      requires Valid() && mode.ReadsThenDmaThenNext? && LocalDone() && DueNow()
      requires nextReads == null ==> dma.index == |dma.requests|
      modifies this`nextReads, machine, nextReads
      ensures Valid() && machine.mmas == old(machine.mmas)
      ensures nextReads != null && (nextReads == old(nextReads) || fresh(nextReads))
      ensures old(nextReads) == null ==> nextReads.Calls() == 1
      ensures old(nextReads) != null ==>
        nextReads.Calls() == old(nextReads.Calls()) + if old(nextReads.Done()) then 0 else 1
      ensures Progress() == Min(old(Progress()) + 1, Total())
    {
      CallsOfReader();
      hide Valid, Geometry.Valid, Due;
      if nextReads == null {
        PublishNext();
      }
      ReadNext();
    }

    /**
     `after_mfma`: behind every MMA of the first k-tile one operation, a local read before a request before a read of
     the next stage, until the mode asks for nothing more.
     */
    method AfterMfma()
      requires Valid() && firstMma < machine.mmas <= firstMma + Tiles()
      requires Progress() == Min(machine.mmas - firstMma - 1, Total())
      modifies this, machine, dma, nextReads
      ensures Valid() && machine.mmas == old(machine.mmas)
      ensures Progress() == Min(machine.mmas - firstMma, Total())
      ensures nextReads == old(nextReads) || fresh(nextReads)
    {
      DueAfterMma();
      hide Valid, DueNow, Progress, Total;
      var emitted := ReadNextLocal();
      if emitted || mode.ReadsOnly? {
        return;
      }
      if nextReads == null {
        emitted := IssueNext();
        if emitted || mode.ReadsThenDma? {
          return;
        }
      }
      ReadNextStage();
    }

    lemma DueAfterMma()
      requires Valid() && firstMma < machine.mmas <= firstMma + Tiles()
      requires Progress() == Min(machine.mmas - firstMma - 1, Total())
      ensures DueNow() && (nextReads != null ==> mode.ReadsThenDmaThenNext? && dma.index == |dma.requests|)
    {
      if Progress() < Total() {
        DueOnCallback(firstMma, Tiles(), LastCall(), machine.mmas - firstMma);
      }
    }

    lemma CallsOfReader()
      requires Valid()
      ensures Progress() <= Total()
      ensures nextReads != null ==> (nextReads.Done() <==> nextReads.Calls() == g.waveM + g.waveN + 1)
      ensures nextReads != null ==> nextReads.Calls() <= g.waveM + g.waveN + 1
      ensures LocalDone() && mode.ReadsThenDmaThenNext? && dma.index == |dma.requests| ==>
                Progress() == Total() - (g.waveM + g.waveN + 1) + if nextReads == null then 0 else nextReads.Calls()
    {
      hide Geometry.Valid, StageHolds, OtherStageKept, KTileLoads, StageRequests, Frags, OnSchedule;
    }

    /** `dma.emit_remaining()`; once the barrier is out there is nothing left to issue. */
    method FinishDma()
      requires Valid() && LocalDone() && Caught()
      modifies machine, dma
      ensures Valid() && Caught() && machine.mmas == old(machine.mmas)
      ensures nextReads == null ==> dma.index == |dma.requests|
    {
      hide Geometry.Valid, Due, Schedule, Stamps, IssueAll;
      if nextReads == null {
        ghost var more := |dma.requests| - dma.index;
        forall q | Count() <= q < Count() + more ensures Due(firstMma, Tiles(), LastCall(), q) == machine.mmas {
          DueLate(firstMma, Tiles(), LastCall(), q);
        }
        KeepsSchedule(stampsBefore, firstMma, Tiles(), LastCall(), Count(), more, machine.mmas);
        dma.EmitRemaining();
      }
    }

    /** Everything the next stage still needs, whether or not a callback got as far as its barrier. */
    method FinishNext() returns (next: StageState)
      requires Valid() && LocalDone() && mode.ReadsThenDmaThenNext? && Caught()
      modifies this`nextReads, machine, dma, nextReads
      ensures next == LoadedStage(g, nextStep, next.ready)
      ensures StageHolds(g, machine.lds, nextStep, next.ready) && OtherStageKept(dma.base, machine.lds, step)
      ensures machine.writes == dma.before + StageRequests(g, nextStep)
      ensures machine.loads == before + KTileLoads(g, step, 1, ready, |dma.before|)
                               + StageLoads(g, nextStep, next.ready, |machine.writes|)
      ensures machine.mmas == old(machine.mmas)
      ensures machine.stamps == stampsBefore + Schedule(firstMma, Tiles(), LastCall(),
                                                        g.waveM + g.waveN + |dma.requests| + FullCount(g))
    {
      hide Geometry.Valid, StageLoads, KTileLoads, StageRequests, Frags, IssueAll, StageHolds, OtherStageKept,
           StageReadEmitter.Emitted, Due, Schedule, Stamps;
      FinishDma();
      if nextReads == null {
        PublishNext();
      }
      ghost var sofar, base := nextReads.Emitted(), before + KTileLoads(g, step, 1, ready, |dma.before|);
      RestDue();
      next := nextReads.Finish();
      Continued(base, [], sofar, StageLoads(g, nextStep, nextReads.ready, |machine.writes|));
    }

    /** The reads still missing after the last callback are due at once. */
    lemma RestDue()
      requires Valid() && nextReads != null && Caught()
      ensures nextReads.Count() <= FullCount(g)
      ensures stampsBefore + Schedule(firstMma, Tiles(), LastCall(), Count())
              + Stamps(machine.mmas, FullCount(g) - nextReads.Count())
              == stampsBefore + Schedule(firstMma, Tiles(), LastCall(),
                                         g.waveM + g.waveN + |dma.requests| + FullCount(g))
    {
      CallsOfReader();
      hide Geometry.Valid, KTileLoads, StageHolds, OtherStageKept, StageRequests, Frags, StageReadEmitter.Emitted,
           IssueAll, Due, Schedule, Stamps;
      var more := FullCount(g) - nextReads.Count();
      forall q | Count() <= q < Count() + more ensures Due(firstMma, Tiles(), LastCall(), q) == machine.mmas {
        DueLate(firstMma, Tiles(), LastCall(), q);
      }
      KeepsSchedule(stampsBefore, firstMma, Tiles(), LastCall(), Count(), more, machine.mmas);
    }

    /** As `FinishNext`, but the stage's first reads are left to the next loop iteration. */
    method FinishReady() returns (nextReady: Value)
      requires Valid() && LocalDone() && mode.ReadsThenDma? && Caught()
      modifies machine, dma
      ensures StageHolds(g, machine.lds, nextStep, nextReady) && OtherStageKept(dma.base, machine.lds, step)
      ensures machine.writes == dma.before + StageRequests(g, nextStep)
      ensures machine.loads == before + KTileLoads(g, step, 1, ready, |dma.before|)
      ensures machine.mmas == old(machine.mmas)
      ensures machine.stamps == stampsBefore + Schedule(firstMma, Tiles(), LastCall(),
                                                        g.waveM + g.waveN + |dma.requests|)
    {
      hide Schedule;
      FinishDma();
      assert dma.requests[..dma.index] == dma.requests;
      nextReady := machine.Barrier(dma.tokens);
      Restaged(g, dma.base, nextStep, dma.tokens, nextReady);
    }

    method FinishLocal()
      requires Valid() && Caught()
      modifies this`aRead, this`bRead, this`aK1, this`bK1, machine`loads, machine`stamps
      ensures Valid() && LocalDone() && Caught()
      ensures aK1 == Frags(g, DataA, step, 1) && bK1 == Frags(g, DataB, step, 1)
    {
      hide Schedule, Due;
      var more := true;
      while more
        invariant Valid() && Caught()
        invariant !more ==> LocalDone()
        decreases g.waveM + g.waveN - aRead - bRead, more
      {
        CallsOfReader();
        CaughtIsDue();
        more := ReadNextLocal();
      }
    }
  }

  ghost predicate OtherStageKept(base: Lds, lds: Lds, step: nat) {
    forall c | c in base && c in lds && c.stage != step % 2 && base[c].Settled? :: lds[c] == base[c]
  }

  /** With two k-tiles a step, a scale group is a pair of adjacent tiles. */
  lemma TwoPassGroups(g: Geometry)
    requires g.Valid() && g.waveK == 2
    ensures g.aGroups == g.waveM / 2 && g.bGroups == g.waveN / 2
    ensures g.waveM % 2 == 0 && g.waveN % 2 == 0
  {}

  /** `_emit_mma_k_tile`, running the callback after every MMA when there is one. */
  method EmitMmaKTile(g: Geometry, machine: Machine, accs: seq<Value>, ops: Operands, kSel: nat, overlap: Overlap?)
    returns (out: seq<Value>)
    requires g.Valid() && g.waveK == 2 && kSel < 2 && ops.Fits(g) && |accs| == g.waveM * g.waveN
    requires overlap != null ==>
      overlap.Valid() && overlap.machine == machine && overlap.g == g && overlap.firstMma == machine.mmas
      && overlap.Progress() == 0
    modifies machine`mmas, overlap,
             (if overlap == null then {} else {overlap.machine, overlap.dma, overlap.nextReads})
    ensures out == MmaTile(g, accs, ops, kSel)
    ensures machine.mmas == old(machine.mmas) + g.waveM * g.waveN
    ensures overlap != null ==>
      overlap.Valid() && overlap.Caught() && (overlap.nextReads == old(overlap.nextReads) || fresh(overlap.nextReads))
    ensures overlap != null ==> overlap.Progress() == Min(g.waveM * g.waveN, overlap.Total())
  {
    hide Geometry.Valid, Overlap.Valid, MmaTile, Overlap.Progress;
    out := accs;
    var issued := 0;
    for i := 0 to g.waveM
      invariant issued == i * g.waveN && machine.mmas == old(machine.mmas) + issued
      invariant Updated(accs, MmaTile(g, accs, ops, kSel), out, issued)
      invariant overlap != null ==>
        overlap.Valid() && (overlap.nextReads == old(overlap.nextReads) || fresh(overlap.nextReads))
        && overlap.Progress() == Min(issued, overlap.Total())
    {
      for j := 0 to g.waveN
        invariant issued == i * g.waveN + j && machine.mmas == old(machine.mmas) + issued
        invariant Updated(accs, MmaTile(g, accs, ops, kSel), out, issued)
        invariant overlap != null ==>
          overlap.Valid() && (overlap.nextReads == old(overlap.nextReads) || fresh(overlap.nextReads))
          && overlap.Progress() == Min(issued, overlap.Total())
      {
        NextMma(g, accs, ops, kSel, i, j, issued);
        var v := machine.IssueMma(ops.a[i], ops.aScales[i / 2], i % 2 + 2 * kSel,
                                  ops.b[j], ops.bScales[j / 2], j % 2 + 2 * kSel, out[i * g.waveN + j]);
        out := out[i * g.waveN + j := v];
        issued := issued + 1;
        if overlap != null {
          overlap.AfterMfma();
        }
      }
      assert issued == (i + 1) * g.waveN;
    }
  }

  /** The first `issued` accumulators are final, the others are untouched. */
  ghost predicate Updated(accs: seq<Value>, spec: seq<Value>, out: seq<Value>, issued: nat)
    requires |spec| == |accs|
  {
    |out| == |accs| && forall t | 0 <= t < |out| :: out[t] == if t < issued then spec[t] else accs[t]
  }

  lemma NextMma(g: Geometry, accs: seq<Value>, ops: Operands, k: nat, i: nat, j: nat, t: nat)
    requires g.Valid() && g.waveK == 2 && ops.Fits(g) && k < 2 && |accs| == g.waveM * g.waveN
    requires i < g.waveM && j < g.waveN && t == i * g.waveN + j
    ensures i / 2 < |ops.aScales| && j / 2 < |ops.bScales| && t < |accs|
    ensures MmaTile(g, accs, ops, k)[t] ==
            Mma(ops.a[i], ops.aScales[i / 2], i % 2 + 2 * k, ops.b[j], ops.bScales[j / 2], j % 2 + 2 * k, accs[t])
  {
    TwoPassGroups(g);
    MmaTileAt(g, accs, ops, k, i, j, t);
    hide MmaTile, Geometry.Valid;
    TwoPassGroup(g, i, k);
    TwoPassGroup(g, j, k);
    hide ScaleGroup;
  }

  lemma TwoPassGroup(g: Geometry, i: nat, k: nat)
    requires g.waveK == 2 && k < 2
    ensures ScaleGroup(g, i, k) == i / 2
  {
    assert i / 2 * 1 == i / 2;
  }
}
