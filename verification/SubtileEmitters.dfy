/**
 The stateful emitters that interleave DMA, LDS reads and the barrier with the MMAs of a k-tile.
 Whatever the number of MMA callbacks, `Finish` leaves every request issued and every fragment
 read exactly once and in order.
 */
module SubtileEmitters {
  import opened Prelude
  import opened SubtileMachine
  import opened SubtileStage

  /** The registers a stage carries from its first reads to its MMAs. */
  datatype StageState = StageState(ready: Value, aFrags: seq<Value>, bFrags: seq<Value>,
                                   aScales: seq<Value>, bScales: seq<Value>)

  function LoadedStage(g: Geometry, step: nat, ready: Value): StageState {
    StageState(ready, Frags(g, DataA, step, 0), Frags(g, DataB, step, 0), Scales(g, ScaleA, step),
               Scales(g, ScaleB, step))
  }

  /** Reads of k-tile `k`: all A fragments, then all B fragments. */
  function KTileLoads(g: Geometry, step: nat, k: nat, ready: Value, issued: nat): (ops: seq<Read>)
    ensures |ops| == g.waveM + g.waveN
  {
    DataLoads(g, DataA, step, k, ready, issued) + DataLoads(g, DataB, step, k, ready, issued)
  }

  lemma NextFrag(g: Geometry, b: Buffer, step: nat, k: nat, i: nat)
    requires i < g.WaveTiles(b)
    ensures Frags(g, b, step, k)[..i + 1] == Frags(g, b, step, k)[..i] + [Frags(g, b, step, k)[i]]
  {}

  lemma NextALoad(g: Geometry, step: nat, k: nat, ready: Value, issued: nat, i: nat)
    requires i < g.waveM
    ensures KTileLoads(g, step, k, ready, issued)[..i + 1]
            == KTileLoads(g, step, k, ready, issued)[..i] + [DataLoads(g, DataA, step, k, ready, issued)[i]]
  {}

  lemma NextBLoad(g: Geometry, step: nat, k: nat, ready: Value, issued: nat, i: nat)
    requires i < g.waveN
    ensures KTileLoads(g, step, k, ready, issued)[..g.waveM + i + 1]
            == KTileLoads(g, step, k, ready, issued)[..g.waveM + i] + [DataLoads(g, DataB, step, k, ready, issued)[i]]
  {}

  function AllScaleLoads(g: Geometry, step: nat, ready: Value, issued: nat): seq<Read> {
    ScaleLoads(g, ScaleA, step, ready, issued) + ScaleLoads(g, ScaleB, step, ready, issued)
  }

  /** How many reads start a stage. */
  function FullCount(g: Geometry): nat { g.waveM + g.waveN + g.aGroups + g.bGroups }

  /** Reads that start a stage: the first k-tile, then every scale group. */
  function StageLoads(g: Geometry, step: nat, ready: Value, issued: nat): seq<Read> {
    KTileLoads(g, step, 0, ready, issued) + AllScaleLoads(g, step, ready, issued)
  }

  /** With the whole first k-tile read, the scales are what is left. */
  lemma ScalesAreLast(g: Geometry, step: nat, ready: Value, issued: nat)
    ensures StageLoads(g, step, ready, issued)
            == KTileLoads(g, step, 0, ready, issued)[..g.waveM + g.waveN] + AllScaleLoads(g, step, ready, issued)
  {}

  lemma StageLoadsInOrder(g: Geometry, base: seq<Read>, step: nat, ready: Value, issued: nat)
    ensures base + DataLoads(g, DataA, step, 0, ready, issued) + DataLoads(g, DataB, step, 0, ready, issued)
            + AllScaleLoads(g, step, ready, issued)
            == base + StageLoads(g, step, ready, issued)
  {
    hide DataLoads, AllScaleLoads;
  }

  lemma Extends<T>(a: seq<T>, b: seq<T>)
    ensures a <= a + b && (a + b)[|a|..] == b
  {}

  /** Two prefixes emitted one after the other are emitted as one. */
  lemma Continued<T>(base: seq<T>, e0: seq<T>, e1: seq<T>, e2: seq<T>)
    requires e0 <= e1 <= e2
    ensures e0 <= e2 && base + e1[|e0|..] + e2[|e1|..] == base + e2[|e0|..]
  {}

  /** Reads every scale group of one operand. */
  method ReadScales(g: Geometry, machine: Machine, b: Buffer, step: nat, ready: Value) returns (scales: seq<Value>)
    requires g.Valid() && !IsData(b) && StageHolds(g, machine.lds, step, ready)
    modifies machine`loads, machine`stamps
    ensures scales == Scales(g, b, step)
    ensures machine.loads == old(machine.loads) + ScaleLoads(g, b, step, ready, |machine.writes|)
    ensures machine.stamps == old(machine.stamps) + Stamps(machine.mmas, g.Groups(b))
  {
    hide StageHolds, Observe, ScaleFirst;
    scales := [];
    for i := 0 to g.Groups(b)
      invariant scales == Scales(g, b, step)[..i]
      invariant machine.loads == old(machine.loads) + ScaleLoads(g, b, step, ready, |machine.writes|)[..i]
      invariant machine.stamps == old(machine.stamps) + Stamps(machine.mmas, i)
    {
      var v := machine.Load(ScaleLoads(g, b, step, ready, |machine.writes|)[i].op);
      ScaleObserved(g, machine.lds, b, step, i, ready, |machine.writes|);
      scales := scales + [v];
    }
  }

  /** `_read_scale_groups` */
  method ReadScaleGroups(g: Geometry, machine: Machine, step: nat, ready: Value)
    returns (aScales: seq<Value>, bScales: seq<Value>)
    requires g.Valid() && StageHolds(g, machine.lds, step, ready)
    modifies machine`loads, machine`stamps
    ensures aScales == Scales(g, ScaleA, step) && bScales == Scales(g, ScaleB, step)
    ensures machine.loads == old(machine.loads) + AllScaleLoads(g, step, ready, |machine.writes|)
    ensures machine.stamps == old(machine.stamps) + Stamps(machine.mmas, g.aGroups + g.bGroups)
  {
    aScales := ReadScales(g, machine, ScaleA, step, ready);
    bScales := ReadScales(g, machine, ScaleB, step, ready);
  }

  /** `_load_data_frag` */
  method LoadFrag(g: Geometry, machine: Machine, b: Buffer, step: nat, k: nat, i: nat, ready: Value)
    returns (frag: Value)
    requires g.Valid() && IsData(b) && k < g.waveK && i < g.WaveTiles(b) && StageHolds(g, machine.lds, step, ready)
    modifies machine`loads, machine`stamps
    ensures frag == Frags(g, b, step, k)[i]
    ensures machine.loads == old(machine.loads) + [DataLoads(g, b, step, k, ready, |machine.writes|)[i]]
    ensures machine.stamps == old(machine.stamps) + Stamps(machine.mmas, 1)
  {
    DataObserved(g, machine.lds, b, step, k, i, ready, |machine.writes|);
    StampsJoin(machine.mmas, 0, 0);
    hide Geometry.Valid, StageHolds, Observe, Stamps, DataLoads, Frags;
    frag := machine.Load(DataLoads(g, b, step, k, ready, |machine.writes|)[i].op);
  }

  /** Reads k-tile `k` of one operand. */
  method ReadFrags(g: Geometry, machine: Machine, b: Buffer, step: nat, k: nat, ready: Value)
    returns (frags: seq<Value>)
    requires g.Valid() && IsData(b) && k < g.waveK && StageHolds(g, machine.lds, step, ready)
    modifies machine`loads, machine`stamps
    ensures frags == Frags(g, b, step, k)
    ensures machine.loads == old(machine.loads) + DataLoads(g, b, step, k, ready, |machine.writes|)
    ensures machine.stamps == old(machine.stamps) + Stamps(machine.mmas, g.WaveTiles(b))
  {
    hide StageHolds, Observe, ReadSlot;
    frags := [];
    for i := 0 to g.WaveTiles(b)
      invariant frags == Frags(g, b, step, k)[..i]
      invariant machine.loads == old(machine.loads) + DataLoads(g, b, step, k, ready, |machine.writes|)[..i]
      invariant machine.stamps == old(machine.stamps) + Stamps(machine.mmas, i)
    {
      var v := LoadFrag(g, machine, b, step, k, i, ready);
      frags := frags + [v];
    }
  }

  /** `_DmaEmitter` */
  class DmaEmitter {
    const machine: Machine
    const requests: seq<Request>
    var index: nat
    var tokens: seq<Value>
    ghost const base: Lds
    ghost const before: seq<Request>

    ghost predicate Valid()
      reads this, machine`lds, machine`writes
    {
      && index == |tokens| <= |requests|
      && machine.lds == IssueAll(base, requests[..index], tokens)
      && machine.writes == before + requests[..index]
    }

    constructor (machine: Machine, requests: seq<Request>)
      ensures this.machine == machine && this.requests == requests
      ensures base == machine.lds && before == machine.writes && index == 0
      ensures Valid()
    {
      this.machine := machine;
      this.requests := requests;
      index := 0;
      tokens := [];
      base := machine.lds;
      before := machine.writes;
      new;
      assert requests[..0] == [];
    }

    method EmitOne() returns (emitted: bool)
      requires Valid()
      modifies this, machine
      ensures Valid() && machine.loads == old(machine.loads) && machine.mmas == old(machine.mmas)
      ensures machine.stamps == old(machine.stamps) + Stamps(machine.mmas, if emitted then 1 else 0)
      ensures emitted == (old(index) < |requests|)
      ensures index == old(index) + if emitted then 1 else 0
      ensures tokens == old(tokens) + if emitted then [Token(old(machine.nextToken))] else []
      ensures machine.nextToken == old(machine.nextToken) + if emitted then 1 else 0
      ensures !emitted ==> machine.lds == old(machine.lds)
    {
      if index >= |requests| {
        return false;
      }
      var token := machine.Write(requests[index]);
      assert requests[..index + 1] == requests[..index] + [requests[index]];
      assert requests[..index + 1][..index] == requests[..index];
      assert (tokens + [token])[..index] == tokens;
      tokens := tokens + [token];
      index := index + 1;
      return true;
    }

    method EmitRemaining()
      requires Valid()
      modifies this, machine
      ensures Valid() && machine.loads == old(machine.loads) && machine.mmas == old(machine.mmas)
      ensures machine.stamps == old(machine.stamps) + Stamps(machine.mmas, |requests| - old(index))
      ensures index == |requests|
    {
      var more := true;
      while more
        invariant Valid() && machine.loads == old(machine.loads) && machine.mmas == old(machine.mmas)
        invariant old(index) <= index
        invariant machine.stamps == old(machine.stamps) + Stamps(machine.mmas, index - old(index))
        invariant !more ==> index == |requests|
        decreases |requests| - index, more
      {
        more := EmitOne();
      }
    }
  }

  /** `_StageReadEmitter`: the first k-tile and the scales of a published stage, one read a call. */
  class StageReadEmitter {
    const g: Geometry
    const machine: Machine
    const step: nat
    const ready: Value
    ghost const issued: nat
    var aIndex: nat
    var bIndex: nat
    var scalesRead: bool
    var aFrags: seq<Value>
    var bFrags: seq<Value>
    var aScales: seq<Value>
    var bScales: seq<Value>

    ghost predicate Valid()
      reads this
    {
      && g.Valid() && g.waveK > 0
      && aIndex <= g.waveM && bIndex <= g.waveN
      && (bIndex > 0 ==> aIndex == g.waveM)
      && (scalesRead ==> aIndex == g.waveM && bIndex == g.waveN)
      && aFrags == Frags(g, DataA, step, 0)[..aIndex]
      && bFrags == Frags(g, DataB, step, 0)[..bIndex]
      && aScales == (if scalesRead then Scales(g, ScaleA, step) else [])
      && bScales == (if scalesRead then Scales(g, ScaleB, step) else [])
    }

    /** The reads emitted so far. */
    ghost function Emitted(): seq<Read>
      reads this
      requires Valid()
    {
      if scalesRead then StageLoads(g, step, ready, issued)
      else KTileLoads(g, step, 0, ready, issued)[..aIndex + bIndex]
    }

    ghost predicate Done()
      reads this
    {
      scalesRead
    }

    /** How many reads that is. */
    ghost function Count(): nat
      reads this
    {
      aIndex + bIndex + if scalesRead then g.aGroups + g.bGroups else 0
    }

    /** How many calls have emitted something. */
    ghost function Calls(): nat
      reads this
    {
      aIndex + bIndex + if scalesRead then 1 else 0
    }

    lemma Bounded()
      requires Valid()
      ensures Calls() <= g.waveM + g.waveN + 1 && (Done() <==> Calls() == g.waveM + g.waveN + 1)
      ensures Done() ==> Count() == FullCount(g)
    {}

    constructor (g: Geometry, machine: Machine, step: nat, ready: Value)
      requires g.Valid()
      ensures this.g == g && this.machine == machine && this.step == step && this.ready == ready
      ensures issued == |machine.writes|
      ensures Valid() && Emitted() == [] && Calls() == 0
    {
      this.g := g;
      this.machine := machine;
      this.step := step;
      this.ready := ready;
      issued := |machine.writes|;
      aIndex, bIndex, scalesRead := 0, 0, false;
      aFrags, bFrags, aScales, bScales := [], [], [], [];
    }

    method EmitA()
      requires Valid() && StageHolds(g, machine.lds, step, ready) && |machine.writes| == issued && aIndex < g.waveM
      modifies this`aIndex, this`aFrags, machine`loads, machine`stamps
      ensures Valid() && aIndex == old(aIndex) + 1
      ensures old(Emitted()) <= Emitted()
      ensures machine.loads == old(machine.loads) + Emitted()[|old(Emitted())|..]
      ensures machine.stamps == old(machine.stamps) + Stamps(machine.mmas, 1)
    {
      hide Geometry.Valid, KTileLoads, StageHolds, DataLoads, Frags, StageLoads, Scales, AllScaleLoads, Stamps;
      NextFrag(g, DataA, step, 0, aIndex);
      NextALoad(g, step, 0, ready, issued, aIndex);
      Extends(Emitted(), [DataLoads(g, DataA, step, 0, ready, issued)[aIndex]]);
      var v := LoadFrag(g, machine, DataA, step, 0, aIndex, ready);
      aFrags := aFrags + [v];
      aIndex := aIndex + 1;
    }

    method EmitB()
      requires Valid() && StageHolds(g, machine.lds, step, ready) && |machine.writes| == issued
      requires aIndex == g.waveM && bIndex < g.waveN
      modifies this`bIndex, this`bFrags, machine`loads, machine`stamps
      ensures Valid() && bIndex == old(bIndex) + 1
      ensures old(Emitted()) <= Emitted()
      ensures machine.loads == old(machine.loads) + Emitted()[|old(Emitted())|..]
      ensures machine.stamps == old(machine.stamps) + Stamps(machine.mmas, 1)
    {
      hide Geometry.Valid, KTileLoads, StageHolds, DataLoads, Frags, StageLoads, Scales, AllScaleLoads, Stamps;
      NextFrag(g, DataB, step, 0, bIndex);
      NextBLoad(g, step, 0, ready, issued, bIndex);
      Extends(Emitted(), [DataLoads(g, DataB, step, 0, ready, issued)[bIndex]]);
      var v := LoadFrag(g, machine, DataB, step, 0, bIndex, ready);
      bFrags := bFrags + [v];
      bIndex := bIndex + 1;
    }

    method EmitScales()
      requires Valid() && StageHolds(g, machine.lds, step, ready) && |machine.writes| == issued
      requires aIndex == g.waveM && bIndex == g.waveN && !scalesRead
      modifies this`scalesRead, this`aScales, this`bScales, machine`loads, machine`stamps
      ensures Valid() && scalesRead
      ensures old(Emitted()) <= Emitted()
      ensures machine.loads == old(machine.loads) + Emitted()[|old(Emitted())|..]
      ensures machine.stamps == old(machine.stamps) + Stamps(machine.mmas, g.aGroups + g.bGroups)
    {
      hide Geometry.Valid, KTileLoads, StageHolds, Frags, StageLoads, Scales, AllScaleLoads, Stamps;
      ScalesAreLast(g, step, ready, issued);
      Extends(Emitted(), AllScaleLoads(g, step, ready, issued));
      aScales, bScales := ReadScaleGroups(g, machine, step, ready);
      scalesRead := true;
    }

    method EmitOne() returns (emitted: bool)
      requires Valid() && StageHolds(g, machine.lds, step, ready) && |machine.writes| == issued
      modifies this, machine`loads, machine`stamps
      ensures Valid()
      ensures emitted == !old(Done())
      ensures old(Emitted()) <= Emitted()
      ensures machine.loads == old(machine.loads) + Emitted()[|old(Emitted())|..]
      ensures Calls() == old(Calls()) + if emitted then 1 else 0
      ensures Count() == old(Count()) + if !emitted then 0 else if old(Calls()) < g.waveM + g.waveN then 1
                                        else g.aGroups + g.bGroups
      ensures machine.stamps == old(machine.stamps) + Stamps(machine.mmas, Count() - old(Count()))
    {
      hide Geometry.Valid, StageHolds, Frags, Scales, Emitted, Stamps;
      StampsJoin(machine.mmas, 0, 0);
      if aIndex < g.waveM {
        EmitA();
        return true;
      }
      if bIndex < g.waveN {
        EmitB();
        return true;
      }
      if !scalesRead {
        EmitScales();
        return true;
      }
      return false;
    }

    method EmitRemaining()
      requires Valid() && StageHolds(g, machine.lds, step, ready) && |machine.writes| == issued
      modifies this, machine`loads, machine`stamps
      ensures Valid() && Done()
      ensures old(Emitted()) <= Emitted()
      ensures machine.loads == old(machine.loads) + Emitted()[|old(Emitted())|..]
      ensures Count() == FullCount(g) >= old(Count())
      ensures machine.stamps == old(machine.stamps) + Stamps(machine.mmas, Count() - old(Count()))
    {
      hide Geometry.Valid, StageHolds, Frags, Scales, Emitted, Stamps, Valid;
      StampsJoin(machine.mmas, 0, 0);
      var more := true;
      Bounded();
      while more
        invariant old(Count()) <= Count()
        invariant machine.stamps == old(machine.stamps) + Stamps(machine.mmas, Count() - old(Count()))
        invariant Valid() && StageHolds(g, machine.lds, step, ready) && |machine.writes| == issued
        invariant Calls() <= g.waveM + g.waveN + 1 && (Done() ==> Count() == FullCount(g))
        invariant !more ==> Done()
        invariant old(Emitted()) <= Emitted()
        invariant machine.loads == old(machine.loads) + Emitted()[|old(Emitted())|..]
        decreases g.waveM + g.waveN + 1 - Calls(), more
      {
        ghost var sofar, count := Emitted(), Count();
        Bounded();
        more := EmitOne();
        Bounded();
        StampsJoin(machine.mmas, count - old(Count()), Count() - count);
        Joined(old(machine.stamps), Stamps(machine.mmas, count - old(Count())), Stamps(machine.mmas, Count() - count));
        Continued(old(machine.loads), old(Emitted()), sofar, Emitted());
      }
    }

    method Finish() returns (state: StageState)
      requires Valid() && StageHolds(g, machine.lds, step, ready) && |machine.writes| == issued
      modifies this, machine`loads, machine`stamps
      ensures Valid() && Done()
      ensures state == LoadedStage(g, step, ready)
      ensures old(Emitted()) <= StageLoads(g, step, ready, issued)
      ensures machine.loads == old(machine.loads) + StageLoads(g, step, ready, issued)[|old(Emitted())|..]
      ensures Count() == FullCount(g) >= old(Count())
      ensures machine.stamps == old(machine.stamps) + Stamps(machine.mmas, FullCount(g) - old(Count()))
    {
      EmitRemaining();
      state := StageState(ready, aFrags, bFrags, aScales, bScales);
    }
  }
}
