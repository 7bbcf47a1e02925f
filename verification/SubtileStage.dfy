/**
 The shape of one pipeline stage: which requests fill it, which loads read it, and what each
 accumulator is meant to receive from it.
 */
module SubtileStage {
  import MixedRadix
  import opened SubtileMachine

  /** Tile counts of the workgroup and of the wave whose registers are followed. */
  datatype Geometry = Geometry(
    waveM: nat, waveN: nat, waveK: nat,
    blockM: nat, blockN: nat, waves: nat,
    aSlots: nat, bSlots: nat,
    aGroups: nat, bGroups: nat, aParts: nat, bParts: nat,
    aFirst: nat, bFirst: nat, aPart: nat, bPart: nat,
    steps: nat, tensileLite: bool)
  {
    predicate Valid() {
      && waveM >= 2 && waveN >= 2 && waveK >= 2
      && waveM % 2 == 0 && waveN % 2 == 0 && waveK % 2 == 0
      && waves > 0 && steps > 0
      && aSlots == waveK * blockM && bSlots == waveK * blockN
      && aSlots % waves == 0 && bSlots % waves == 0
      && aGroups == (waveM / 2) * (waveK / 2) && bGroups == (waveN / 2) * (waveK / 2)
      && aFirst + waveM <= blockM && bFirst + waveN <= blockN
      && aPart < aParts && bPart < bParts
      && (tensileLite ==> waveK == 2 && (steps == 1 || steps % 2 == 0))
    }

    function WaveTiles(b: Buffer): nat {
      if b.DataA? || b.ScaleA? then waveM else waveN
    }

    function BlockTiles(b: Buffer): nat {
      if b.DataA? || b.ScaleA? then blockM else blockN
    }

    function FirstTile(b: Buffer): nat {
      if b.DataA? || b.ScaleA? then aFirst else bFirst
    }

    function Slots(b: Buffer): nat {
      if b.DataA? || b.ScaleA? then aSlots else bSlots
    }

    function Groups(b: Buffer): nat {
      if b.DataA? || b.ScaleA? then aGroups else bGroups
    }

    function Partitions(b: Buffer): nat {
      if b.DataA? || b.ScaleA? then aParts else bParts
    }

    function Partition(b: Buffer): nat {
      if b.DataA? || b.ScaleA? then aPart else bPart
    }

    function CellCount(b: Buffer): nat {
      if b.DataA? || b.DataB? then Slots(b) else Partitions(b) * Groups(b) * 4
    }

    function Cells(): set<Cell> {
      set b, s, i | b in {DataA, DataB, ScaleA, ScaleB} && 0 <= s < 2 && 0 <= i < CellCount(b) :: Cell(b, s, i)
    }
  }

  predicate IsData(b: Buffer) {
    b.DataA? || b.DataB?
  }

  // ---------------------------------------------------------------- requests

  /** One DMA per slot that each wave owns; together the waves cover `waves` adjacent slots. */
  function DataRequests(g: Geometry, b: Buffer, step: nat): (r: seq<Request>)
    requires g.waves > 0
  {
    seq(g.Slots(b) / g.waves, i requires i >= 0 => DataDma(b, step, i, g.waves))
  }

  /** Runs of four scale groups while four are left, then single groups. */
  function ScaleDmas(b: Buffer, step: nat, groups: nat, first: nat): (r: seq<Request>)
    requires first <= groups
    decreases groups - first
  {
    if first == groups then []
    else
      var chunk := if groups - first >= 4 then 4 else 1;
      [ScaleDma(b, step, groups, first, chunk)] + ScaleDmas(b, step, groups, first + chunk)
  }

  /** Canonical staging: one byte store per scale group and selector. */
  function ScaleStores(b: Buffer, step: nat, groups: nat): (r: seq<Request>) {
    seq(groups * 4, i requires i >= 0 => ScaleStore(b, step, groups, i / 4, i % 4))
  }

  function ScaleRequests(g: Geometry, b: Buffer, step: nat): seq<Request> {
    if g.tensileLite then ScaleDmas(b, step, g.Groups(b), 0) else ScaleStores(b, step, g.Groups(b))
  }

  function StageRequests(g: Geometry, step: nat): seq<Request>
    requires g.waves > 0
  {
    DataRequests(g, DataA, step) + DataRequests(g, DataB, step)
    + ScaleRequests(g, ScaleA, step) + ScaleRequests(g, ScaleB, step)
  }

  /** Every stage takes the same number of requests. */
  lemma RequestCount(g: Geometry, step: nat)
    requires g.waves > 0
    ensures |StageRequests(g, step)| == |StageRequests(g, 0)|
  {
    ScaleDmasCount(ScaleA, step, g.aGroups, 0);
    ScaleDmasCount(ScaleB, step, g.bGroups, 0);
  }

  lemma {:induction false} ScaleDmasCount(b: Buffer, step: nat, groups: nat, first: nat)
    requires first <= groups
    ensures |ScaleDmas(b, step, groups, first)| == |ScaleDmas(b, 0, groups, first)|
    decreases groups - first
  {
    if first < groups {
      ScaleDmasCount(b, step, groups, first + if groups - first >= 4 then 4 else 1);
    }
  }

  /** Requests of steps 0 .. n-1. */
  function RequestsUpTo(g: Geometry, n: nat): seq<Request>
    requires g.waves > 0
  {
    if n == 0 then [] else RequestsUpTo(g, n - 1) + StageRequests(g, n - 1)
  }

  predicate Covered(requests: seq<Request>, c: Cell) {
    exists i | 0 <= i < |requests| :: requests[i].Writes(c)
  }

  lemma DataCovered(g: Geometry, b: Buffer, step: nat, c: Cell)
    requires g.waves > 0 && g.Slots(b) % g.waves == 0
    requires c.buffer == b && c.stage == step % 2 && c.index < g.Slots(b)
    ensures Covered(DataRequests(g, b, step), c)
  {
    var i, n := c.index / g.waves, g.Slots(b) / g.waves;
    MixedRadix.ExactQuotient(g.Slots(b), g.waves);
    MixedRadix.Compose(c.index, n, g.waves);
    assert DataRequests(g, b, step)[i] == DataDma(b, step, i, g.waves);
  }

  lemma {:induction false} ScaleDmasCover(b: Buffer, step: nat, groups: nat, first: nat, c: Cell)
    requires first <= groups && groups > 0
    requires c.buffer == b && c.stage == step % 2 && first <= (c.index / 4) % groups
    ensures Covered(ScaleDmas(b, step, groups, first), c)
    decreases groups - first
  {
    var chunk := if groups - first >= 4 then 4 else 1;
    var rs := ScaleDmas(b, step, groups, first);
    if (c.index / 4) % groups < first + chunk {
      assert rs[0].Writes(c);
    } else {
      ScaleDmasCover(b, step, groups, first + chunk, c);
      var rest := ScaleDmas(b, step, groups, first + chunk);
      var i :| 0 <= i < |rest| && rest[i].Writes(c);
      assert rs[i + 1].Writes(c);
    }
  }

  lemma ScaleStoresCover(b: Buffer, step: nat, groups: nat, c: Cell)
    requires groups > 0 && c.buffer == b && c.stage == step % 2
    ensures Covered(ScaleStores(b, step, groups), c)
  {
    var i := (c.index / 4) % groups * 4 + c.index % 4;
    assert i / 4 == (c.index / 4) % groups && i % 4 == c.index % 4;
    assert ScaleStores(b, step, groups)[i].Writes(c);
  }

  lemma CoveredConcat(left: seq<Request>, right: seq<Request>, c: Cell)
    requires Covered(left, c) || Covered(right, c)
    ensures Covered(left + right, c)
  {
    if Covered(left, c) {
      var i :| 0 <= i < |left| && left[i].Writes(c);
      assert (left + right)[i].Writes(c);
    } else {
      var i :| 0 <= i < |right| && right[i].Writes(c);
      assert (left + right)[|left| + i].Writes(c);
    }
  }

  /** Every cell of the stage of `step` is written by some request of that stage. */
  lemma StageCovered(g: Geometry, step: nat, c: Cell)
    requires g.Valid() && c in g.Cells() && c.stage == step % 2
    ensures Covered(StageRequests(g, step), c)
  {
    var a, b := DataRequests(g, DataA, step), DataRequests(g, DataB, step);
    var sa, sb := ScaleRequests(g, ScaleA, step), ScaleRequests(g, ScaleB, step);
    if IsData(c.buffer) {
      DataCovered(g, c.buffer, step, c);
    } else {
      var groups := g.Groups(c.buffer);
      assert g.CellCount(c.buffer) == g.Partitions(c.buffer) * groups * 4;
      if g.tensileLite {
        ScaleDmasCover(c.buffer, step, groups, 0, c);
      } else {
        ScaleStoresCover(c.buffer, step, groups, c);
      }
    }
    if c.buffer.DataA? || c.buffer.DataB? { CoveredConcat(a, b, c); }
    if !c.buffer.ScaleB? { CoveredConcat(a + b, sa, c); }
    CoveredConcat(a + b + sa, sb, c);
  }

  lemma {:induction false} ScaleDmasStep(b: Buffer, step: nat, groups: nat, first: nat)
    requires first <= groups
    ensures forall r | r in ScaleDmas(b, step, groups, first) :: r.step == step
    decreases groups - first
  {
    if first < groups {
      ScaleDmasStep(b, step, groups, first + if groups - first >= 4 then 4 else 1);
    }
  }

  lemma StageRequestsStep(g: Geometry, step: nat)
    requires g.Valid()
    ensures forall r | r in StageRequests(g, step) :: r.step == step
  {
    ScaleDmasStep(ScaleA, step, g.aGroups, 0);
    ScaleDmasStep(ScaleB, step, g.bGroups, 0);
  }

  /** The requests of a stage that fill one buffer. */
  function Segment(g: Geometry, b: Buffer, step: nat): seq<Request>
    requires g.waves > 0
  {
    if IsData(b) then DataRequests(g, b, step) else ScaleRequests(g, b, step)
  }

  function SegmentStart(g: Geometry, b: Buffer, step: nat): nat
    requires g.waves > 0
  {
    match b
    case DataA => 0
    case DataB => |Segment(g, DataA, step)|
    case ScaleA => |Segment(g, DataA, step)| + |Segment(g, DataB, step)|
    case ScaleB => |Segment(g, DataA, step)| + |Segment(g, DataB, step)| + |Segment(g, ScaleA, step)|
  }

  lemma {:induction false} ScaleDmasFrom(b: Buffer, step: nat, groups: nat, first: nat, i: nat)
    requires first <= groups && i < |ScaleDmas(b, step, groups, first)|
    ensures var r := ScaleDmas(b, step, groups, first)[i];
            r.ScaleDma? && r.buffer == b && r.groups == groups && first <= r.first < r.first + r.count <= groups
    decreases groups - first
  {
    if i > 0 {
      ScaleDmasFrom(b, step, groups, first + if groups - first >= 4 then 4 else 1, i - 1);
    }
  }

  /** The runs of groups follow one another. */
  lemma {:induction false} ScaleDmasAscend(b: Buffer, step: nat, groups: nat, first: nat, i: nat, j: nat)
    requires first <= groups && i < j < |ScaleDmas(b, step, groups, first)|
    ensures ScaleDmas(b, step, groups, first)[i].ScaleDma? && ScaleDmas(b, step, groups, first)[j].ScaleDma?
    ensures ScaleDmas(b, step, groups, first)[i].first + ScaleDmas(b, step, groups, first)[i].count
            <= ScaleDmas(b, step, groups, first)[j].first
    decreases groups - first
  {
    var next := first + if groups - first >= 4 then 4 else 1;
    if i == 0 {
      ScaleDmasFrom(b, step, groups, next, j - 1);
    } else {
      ScaleDmasAscend(b, step, groups, next, i - 1, j - 1);
    }
  }

  /** A request knows its buffer, so its place in the stage gives its place in the buffer's segment. */
  lemma InSegment(g: Geometry, step: nat, i: nat) returns (k: nat)
    requires g.waves > 0 && i < |StageRequests(g, step)|
    ensures var b := StageRequests(g, step)[i].buffer;
            k < |Segment(g, b, step)| && Segment(g, b, step)[k] == StageRequests(g, step)[i]
            && i == SegmentStart(g, b, step) + k
  {
    var a, b := DataRequests(g, DataA, step), DataRequests(g, DataB, step);
    var sa, sb := ScaleRequests(g, ScaleA, step), ScaleRequests(g, ScaleB, step);
    FourSegments(a, b, sa, sb, i);
    hide ScaleRequests, DataRequests;
    if i < |a| {
      k := i;
      SegmentBuffer(g, DataA, step, k);
    } else if i < |a| + |b| {
      k := i - |a|;
      SegmentBuffer(g, DataB, step, k);
    } else if i < |a| + |b| + |sa| {
      k := i - |a| - |b|;
      SegmentBuffer(g, ScaleA, step, k);
    } else {
      k := i - |a| - |b| - |sa|;
      SegmentBuffer(g, ScaleB, step, k);
    }
  }

  lemma FourSegments<T>(a: seq<T>, b: seq<T>, c: seq<T>, d: seq<T>, i: nat)
    requires i < |a + b + c + d|
    ensures (a + b + c + d)[i] == if i < |a| then a[i]
                                  else if i < |a| + |b| then b[i - |a|]
                                  else if i < |a| + |b| + |c| then c[i - |a| - |b|]
                                  else d[i - |a| - |b| - |c|]
  {}

  lemma SegmentBuffer(g: Geometry, b: Buffer, step: nat, k: nat)
    requires g.waves > 0 && k < |Segment(g, b, step)|
    ensures Segment(g, b, step)[k].buffer == b
  {
    if !IsData(b) && g.tensileLite {
      ScaleDmasFrom(b, step, g.Groups(b), 0, k);
    }
  }

  lemma SlotsApart(i: nat, j: nat, waves: nat)
    requires i < j
    ensures i * waves + waves <= j * waves
  {
    MixedRadix.Monotone(i + 1, j, waves);
    MixedRadix.Distributes(i, 1, waves);
  }

  lemma DataOnce(g: Geometry, b: Buffer, step: nat, c: Cell, i: nat, j: nat)
    requires g.waves > 0 && i < j < |DataRequests(g, b, step)| && DataRequests(g, b, step)[i].Writes(c)
    ensures !DataRequests(g, b, step)[j].Writes(c)
  {
    hide Geometry.Slots;
    SlotsApart(i, j, g.waves);
  }

  lemma DmaOnce(b: Buffer, step: nat, groups: nat, c: Cell, i: nat, j: nat)
    requires i < j < |ScaleDmas(b, step, groups, 0)| && ScaleDmas(b, step, groups, 0)[i].Writes(c)
    ensures !ScaleDmas(b, step, groups, 0)[j].Writes(c)
  {
    hide ScaleDmas;
    ScaleDmasFrom(b, step, groups, 0, i);
    ScaleDmasFrom(b, step, groups, 0, j);
    ScaleDmasAscend(b, step, groups, 0, i, j);
  }

  lemma StoreOnce(b: Buffer, step: nat, groups: nat, c: Cell, i: nat, j: nat)
    requires i < j < |ScaleStores(b, step, groups)| && ScaleStores(b, step, groups)[i].Writes(c)
    ensures !ScaleStores(b, step, groups)[j].Writes(c)
  {
    assert i == i / 4 * 4 + i % 4 && j == j / 4 * 4 + j % 4;
  }

  lemma SegmentOnce(g: Geometry, b: Buffer, step: nat, c: Cell, i: nat, j: nat)
    requires g.waves > 0 && i < j < |Segment(g, b, step)|
    requires Segment(g, b, step)[i].Writes(c)
    ensures !Segment(g, b, step)[j].Writes(c)
  {
    hide DataRequests, ScaleDmas, ScaleStores, Request.Writes, Geometry.Groups;
    if IsData(b) {
      DataOnce(g, b, step, c, i, j);
    } else if g.tensileLite {
      DmaOnce(b, step, g.Groups(b), c, i, j);
    } else {
      StoreOnce(b, step, g.Groups(b), c, i, j);
    }
  }

  /** No cell is written by two requests of a stage; with `StageCovered`, each is written by exactly one. */
  lemma WrittenOnce(g: Geometry, step: nat, c: Cell, i: nat, j: nat)
    requires g.waves > 0 && i < |StageRequests(g, step)| && j < |StageRequests(g, step)|
    requires StageRequests(g, step)[i].Writes(c) && StageRequests(g, step)[j].Writes(c)
    ensures i == j
  {
    hide Segment, SegmentStart;
    var k := InSegment(g, step, i);
    var l := InSegment(g, step, j);
    hide StageRequests;
    if k < l {
      SegmentOnce(g, c.buffer, step, c, k, l);
    } else if l < k {
      SegmentOnce(g, c.buffer, step, c, l, k);
    }
  }

  /** Four groups a DMA while four are left: as few requests as whole runs and single groups allow. */
  lemma {:induction false} ScaleDmaCount(b: Buffer, step: nat, groups: nat, first: nat)
    requires first <= groups
    ensures |ScaleDmas(b, step, groups, first)| == (groups - first) / 4 + (groups - first) % 4
    decreases groups - first
  {
    if groups - first >= 4 {
      ScaleDmaCount(b, step, groups, first + 4);
    } else if first < groups {
      ScaleDmaCount(b, step, groups, first + 1);
    }
  }

  // ------------------------------------------------------------- LDS contents

  function IssueAll(lds: Lds, requests: seq<Request>, tokens: seq<Value>): Lds
    requires |requests| == |tokens|
  {
    if requests == [] then lds
    else
      var n := |requests| - 1;
      Issue(IssueAll(lds, requests[..n], tokens[..n]), requests[n], tokens[n])
  }

  /** After issuing requests of one step, exactly the covered cells are in flight. */
  lemma {:induction false} IssueAllContents(lds: Lds, requests: seq<Request>, tokens: seq<Value>, step: nat, c: Cell)
    requires |requests| == |tokens| && c in lds
    requires forall r | r in requests :: r.step == step
    ensures c in IssueAll(lds, requests, tokens)
    ensures var after := IssueAll(lds, requests, tokens)[c];
            if Covered(requests, c) then after.InFlight? && after.step == step && after.token in tokens
            else after == lds[c]
  {
    if requests != [] {
      var n := |requests| - 1;
      IssueAllContents(lds, requests[..n], tokens[..n], step, c);
      if requests[n].Writes(c) {
      } else if Covered(requests[..n], c) {
        var i :| 0 <= i < n && requests[..n][i].Writes(c);
        assert requests[i].Writes(c);
      } else {
        assert forall i | 0 <= i < n :: requests[i] == requests[..n][i];
      }
    }
  }

  /** The stage of `step` is complete and published by the barrier `ready`. */
  ghost predicate StageHolds(g: Geometry, lds: Lds, step: nat, ready: Value) {
    && lds.Keys == g.Cells()
    && forall c | c in lds && c.stage == step % 2 :: lds[c] == Settled(step, ready)
  }

  lemma {:induction false} IssueAllKeys(lds: Lds, requests: seq<Request>, tokens: seq<Value>)
    requires |requests| == |tokens|
    ensures IssueAll(lds, requests, tokens).Keys == lds.Keys
  {
    if requests != [] {
      IssueAllKeys(lds, requests[..|requests| - 1], tokens[..|tokens| - 1]);
    }
  }

  /** Issuing a whole stage and joining all its tokens publishes it, and disturbs no settled cell elsewhere. */
  lemma Restaged(g: Geometry, lds: Lds, step: nat, tokens: seq<Value>, ready: Value)
    requires g.Valid() && lds.Keys == g.Cells()
    requires |tokens| == |StageRequests(g, step)|
    ensures var after := Settle(IssueAll(lds, StageRequests(g, step), tokens), tokens, ready);
            && StageHolds(g, after, step, ready)
            && forall c | c in lds && c.stage != step % 2 && lds[c].Settled? :: after[c] == lds[c]
  {
    var requests := StageRequests(g, step);
    IssueAllKeys(lds, requests, tokens);
    StageRequestsStep(g, step);
    forall c | c in lds
      ensures var after := Settle(IssueAll(lds, requests, tokens), tokens, ready);
              && (c.stage == step % 2 ==> after[c] == Settled(step, ready))
              && (c.stage != step % 2 && lds[c].Settled? ==> after[c] == lds[c])
    {
      IssueAllContents(lds, requests, tokens, step, c);
      if c.stage == step % 2 {
        StageCovered(g, step, c);
      } else {
        assert forall i | 0 <= i < |requests| :: requests[i] in requests && !requests[i].Writes(c);
      }
    }
  }

  // -------------------------------------------------------------------- loads

  /** Slot read for fragment `i` of k-tile `k` by the wave that is followed. */
  function ReadSlot(g: Geometry, b: Buffer, k: nat, i: nat): nat {
    k * g.BlockTiles(b) + g.FirstTile(b) + i
  }

  /** First cell of scale group `group` in the followed wave's partition. */
  function ScaleFirst(g: Geometry, b: Buffer, group: nat): nat {
    (g.Partition(b) * g.Groups(b) + group) * 4
  }

  /**
   The loads of a k-tile of one operand, each observing its own fragment of `step`, all made when
   `issued` writes have been.
   */
  function DataLoads(g: Geometry, b: Buffer, step: nat, k: nat, ready: Value, issued: nat): (r: seq<Read>)
    ensures |r| == g.WaveTiles(b)
  {
    seq(g.WaveTiles(b), i requires i >= 0 =>
      Read(LoadOp(b, step, ReadSlot(g, b, k, i), 1, ready), Loaded(b, ReadSlot(g, b, k, i), step), issued))
  }

  function ScaleLoads(g: Geometry, b: Buffer, step: nat, ready: Value, issued: nat): seq<Read> {
    seq(g.Groups(b), i requires i >= 0 =>
      Read(LoadOp(b, step, ScaleFirst(g, b, i), 4, ready), Loaded(b, ScaleFirst(g, b, i), step), issued))
  }

  /** What a k-tile's data loads must return: the fragments of `step`. */
  function Frags(g: Geometry, b: Buffer, step: nat, k: nat): (r: seq<Value>)
    ensures |r| == g.WaveTiles(b)
  {
    seq(g.WaveTiles(b), i requires i >= 0 => Loaded(b, ReadSlot(g, b, k, i), step))
  }

  function Scales(g: Geometry, b: Buffer, step: nat): (r: seq<Value>)
    ensures |r| == g.Groups(b)
  {
    seq(g.Groups(b), i requires i >= 0 => Loaded(b, ScaleFirst(g, b, i), step))
  }

  lemma ReadSlotBound(g: Geometry, b: Buffer, k: nat, i: nat)
    requires k < g.waveK && g.FirstTile(b) + i < g.BlockTiles(b)
    requires g.Slots(b) == g.waveK * g.BlockTiles(b)
    ensures ReadSlot(g, b, k, i) < g.Slots(b)
  {
    MixedRadix.Below(k, g.waveK, g.FirstTile(b) + i, g.BlockTiles(b));
  }

  lemma ScaleCellBound(g: Geometry, b: Buffer, i: nat, j: nat)
    requires !IsData(b) && g.Partition(b) < g.Partitions(b) && i < g.Groups(b) && j < 4
    ensures ScaleFirst(g, b, i) + j < g.CellCount(b)
  {
    MixedRadix.Below(g.Partition(b), g.Partitions(b), i, g.Groups(b));
  }

  /** A data load of a published stage observes the fragment of that step. */
  lemma DataObserved(g: Geometry, lds: Lds, b: Buffer, step: nat, k: nat, i: nat, ready: Value, issued: nat)
    requires g.Valid() && IsData(b) && k < g.waveK && i < g.WaveTiles(b)
    requires StageHolds(g, lds, step, ready)
    ensures Observe(lds, DataLoads(g, b, step, k, ready, issued)[i].op)
            == DataLoads(g, b, step, k, ready, issued)[i].observed == Frags(g, b, step, k)[i]
    ensures DataLoads(g, b, step, k, ready, issued)[i].issued == issued
  {
    var op := DataLoads(g, b, step, k, ready, issued)[i].op;
    ReadSlotBound(g, b, k, i);
    assert op.At(0) in g.Cells();
    forall j | 0 <= j < 1 ensures Readable(lds, op.At(j), step, ready) {}
  }

  lemma ScaleObserved(g: Geometry, lds: Lds, b: Buffer, step: nat, i: nat, ready: Value, issued: nat)
    requires g.Valid() && !IsData(b) && i < g.Groups(b)
    requires StageHolds(g, lds, step, ready)
    ensures Observe(lds, ScaleLoads(g, b, step, ready, issued)[i].op)
            == ScaleLoads(g, b, step, ready, issued)[i].observed == Scales(g, b, step)[i]
  {
    var op := ScaleLoads(g, b, step, ready, issued)[i].op;
    forall j | 0 <= j < 4 ensures Readable(lds, op.At(j), step, ready) {
      ScaleCellBound(g, b, i, j);
      assert op.At(j) in g.Cells();
    }
    assert op.At(0) in lds;
  }

  // ------------------------------------------------------------- accumulators

  /** The operand registers of one k-tile. */
  datatype Operands = Operands(a: seq<Value>, b: seq<Value>, aScales: seq<Value>, bScales: seq<Value>) {
    predicate Fits(g: Geometry) {
      && |a| == g.waveM && |b| == g.waveN
      && |aScales| == g.aGroups && |bScales| == g.bGroups
    }
  }

  /** The MMA that k-tile `k` applies to tile (i, j). */
  function MmaAt(g: Geometry, ops: Operands, k: nat, i: nat, j: nat, acc: Value): Value
    requires g.Valid() && ops.Fits(g) && k < g.waveK && i < g.waveM && j < g.waveN
  {
    ScaleGroupInRange(g, i, j, k);
    Mma(ops.a[i], ops.aScales[ScaleGroup(g, i, k)], i % 2 + 2 * (k % 2),
        ops.b[j], ops.bScales[ScaleGroup(g, j, k)], j % 2 + 2 * (k % 2), acc)
  }

  /** The MMAs of one k-tile, one per accumulator: tile t is row t / waveN, column t % waveN. */
  function MmaTile(g: Geometry, accs: seq<Value>, ops: Operands, k: nat): (out: seq<Value>)
    requires g.Valid() && ops.Fits(g) && k < g.waveK && |accs| == g.waveM * g.waveN
    ensures |out| == |accs|
  {
    seq(|accs|, t requires 0 <= t < |accs| =>
      MmaAt(g, ops, k, TileRow(g.waveM, g.waveN, t), TileColumn(g.waveM, g.waveN, t), accs[t]))
  }

  /** The 2x2 scale group of tile `i` and k-tile `k`. */
  function ScaleGroup(g: Geometry, i: nat, k: nat): nat {
    (i / 2) * (g.waveK / 2) + k / 2
  }

  lemma MmaTileAt(g: Geometry, accs: seq<Value>, ops: Operands, k: nat, i: nat, j: nat, t: nat)
    requires g.Valid() && ops.Fits(g) && k < g.waveK && |accs| == g.waveM * g.waveN
    requires i < g.waveM && j < g.waveN && t == i * g.waveN + j
    ensures t < |accs| && MmaTile(g, accs, ops, k)[t] == MmaAt(g, ops, k, i, j, accs[t])
  {
    hide Geometry.Valid, MmaAt;
    MixedRadix.Below(i, g.waveM, j, g.waveN);
    MixedRadix.Split(i, j, g.waveN);
  }

  function TileRow(rows: nat, columns: nat, t: nat): (i: nat)
    requires t < rows * columns
    ensures i < rows
  {
    MixedRadix.Compose(t, rows, columns);
    t / columns
  }

  function TileColumn(rows: nat, columns: nat, t: nat): (j: nat)
    requires t < rows * columns
    ensures j < columns
  {
    MixedRadix.Compose(t, rows, columns);
    t % columns
  }

  lemma ScaleGroupInRange(g: Geometry, i: nat, j: nat, k: nat)
    requires g.Valid() && i < g.waveM && j < g.waveN && k < g.waveK
    ensures ScaleGroup(g, i, k) < g.aGroups && ScaleGroup(g, j, k) < g.bGroups
  {
    MixedRadix.Below(i / 2, g.waveM / 2, k / 2, g.waveK / 2);
    MixedRadix.Below(j / 2, g.waveN / 2, k / 2, g.waveK / 2);
  }

  function StageOperands(g: Geometry, step: nat, k: nat): (ops: Operands)
    ensures ops.Fits(g)
  {
    Operands(Frags(g, DataA, step, k), Frags(g, DataB, step, k), Scales(g, ScaleA, step), Scales(g, ScaleB, step))
  }

  /** The MMA of tile (i, j) in k-tile `k` of `step`, every operand loaded from that step. */
  function StageMma(g: Geometry, step: nat, k: nat, i: nat, j: nat, acc: Value): Value {
    Mma(Loaded(DataA, ReadSlot(g, DataA, k, i), step),
        Loaded(ScaleA, ScaleFirst(g, ScaleA, ScaleGroup(g, i, k)), step), i % 2 + 2 * (k % 2),
        Loaded(DataB, ReadSlot(g, DataB, k, j), step),
        Loaded(ScaleB, ScaleFirst(g, ScaleB, ScaleGroup(g, j, k)), step), j % 2 + 2 * (k % 2), acc)
  }

  lemma StageMmaAt(g: Geometry, step: nat, k: nat, i: nat, j: nat, acc: Value)
    requires g.Valid() && k < g.waveK && i < g.waveM && j < g.waveN
    ensures MmaAt(g, StageOperands(g, step, k), k, i, j, acc) == StageMma(g, step, k, i, j, acc)
  {
    hide Geometry.Valid, ScaleGroup, ReadSlot, ScaleFirst;
    ScaleGroupInRange(g, i, j, k);
    assert Frags(g, DataA, step, k)[i] == Loaded(DataA, ReadSlot(g, DataA, k, i), step);
  }

  lemma KTileAt(g: Geometry, accs: seq<Value>, step: nat, k: nat, i: nat, j: nat)
    requires g.Valid() && k < g.waveK && i < g.waveM && j < g.waveN && |accs| == g.waveM * g.waveN
    ensures i * g.waveN + j < |accs|
    ensures KTile(g, accs, step, k)[i * g.waveN + j] == StageMma(g, step, k, i, j, accs[i * g.waveN + j])
  {
    hide Geometry.Valid, MmaTile, MmaAt, StageMma;
    MmaTileAt(g, accs, StageOperands(g, step, k), k, i, j, i * g.waveN + j);
    StageMmaAt(g, step, k, i, j, accs[i * g.waveN + j]);
  }

  /** The accumulators after k-tile `k` of `step`, every operand taken from that step. */
  function KTile(g: Geometry, accs: seq<Value>, step: nat, k: nat): (out: seq<Value>)
    requires g.Valid() && k < g.waveK && |accs| == g.waveM * g.waveN
    ensures |out| == |accs|
  {
    MmaTile(g, accs, StageOperands(g, step, k), k)
  }

  function KTiles(g: Geometry, accs: seq<Value>, step: nat, k: nat): (out: seq<Value>)
    requires g.Valid() && k <= g.waveK && |accs| == g.waveM * g.waveN
    ensures |out| == |accs|
  {
    if k == 0 then accs else KTile(g, KTiles(g, accs, step, k - 1), step, k - 1)
  }

  /** Reference result: steps 0 .. n-1 in order, the k-tiles of each in order. */
  function Contract(g: Geometry, accs: seq<Value>, n: nat): (out: seq<Value>)
    requires g.Valid() && |accs| == g.waveM * g.waveN
    ensures |out| == |accs|
  {
    if n == 0 then accs else KTiles(g, Contract(g, accs, n - 1), n - 1, g.waveK)
  }
}
