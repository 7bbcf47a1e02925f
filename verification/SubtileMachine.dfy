/**
 The target of the generated kernel, seen from one workgroup that executes the emitted
 operations in emission order, all its waves in lockstep.

 LDS is divided into cells. A data cell is one 1024-byte slot; a scale cell is one selector byte
 of one 256-byte scale group of one wave partition. A DMA (or a scale store) puts the cells it
 covers in flight under a fresh token. Only a barrier that joins that token makes them readable,
 and only for loads ordered after that very barrier. A load of anything else yields `Garbage`.

 SSA values are free terms, so two accumulators that are equal here are equal under every
 interpretation of the scaled MMA.
 */
module SubtileMachine {

  datatype Buffer = DataA | DataB | ScaleA | ScaleB

  datatype Cell = Cell(buffer: Buffer, stage: nat, index: nat)

  datatype Content = Empty | InFlight(step: nat, token: Value) | Settled(step: nat, barrier: Value)

  datatype Value =
    | Token(id: nat)
    | Loaded(buffer: Buffer, first: nat, step: nat)
    | Garbage
    | Initial(tile: nat)
    | Mma(a: Value, aScale: Value, aSel: nat, b: Value, bScale: Value, bSel: nat, acc: Value)

  /** One operation that writes LDS, with the cells all waves of the workgroup cover by it. */
  datatype Request =
    | DataDma(buffer: Buffer, step: nat, ordinal: nat, waves: nat)
    | ScaleDma(buffer: Buffer, step: nat, groups: nat, first: nat, count: nat)
    | ScaleStore(buffer: Buffer, step: nat, groups: nat, group: nat, selector: nat)
  {
    predicate Writes(c: Cell) {
      && c.buffer == buffer
      && c.stage == step % 2
      && match this
         case DataDma(_, _, ordinal, waves) => ordinal * waves <= c.index < ordinal * waves + waves
         case ScaleDma(_, _, groups, first, count) =>
           groups > 0 && first <= (c.index / 4) % groups < first + count
         case ScaleStore(_, _, groups, group, selector) =>
           groups > 0 && (c.index / 4) % groups == group && c.index % 4 == selector
    }
  }

  /** A load of `count` adjacent cells of the stage that belongs to `step`. */
  datatype LoadOp = LoadOp(buffer: Buffer, step: nat, first: nat, count: nat, ready: Value) {
    function At(i: nat): Cell {
      Cell(buffer, step % 2, first + i)
    }
  }

  /** A load that was carried out, with what it observed and how many writes had been issued before it. */
  datatype Read = Read(op: LoadOp, observed: Value, issued: nat)

  type Lds = map<Cell, Content>

  function Issue(lds: Lds, r: Request, token: Value): Lds {
    map c | c in lds :: if r.Writes(c) then InFlight(r.step, token) else lds[c]
  }

  function Settle(lds: Lds, tokens: seq<Value>, barrier: Value): Lds {
    map c | c in lds ::
      if lds[c].InFlight? && lds[c].token in tokens then Settled(lds[c].step, barrier) else lds[c]
  }

  predicate Readable(lds: Lds, c: Cell, step: nat, ready: Value) {
    c in lds && lds[c] == Settled(step, ready)
  }

  /** What a load observes: the step whose data all its cells hold under its ready token. */
  function Observe(lds: Lds, op: LoadOp): Value {
    var head := op.At(0);
    if head in lds && lds[head].Settled? &&
       forall i | 0 <= i < op.count :: Readable(lds, op.At(i), lds[head].step, op.ready)
    then Loaded(op.buffer, op.first, lds[head].step)
    else Garbage
  }

  /**
   A load is worth something if and only if all its cells were settled for one step by the very barrier it waits
   on.
   */
  lemma ObserveExact(lds: Lds, op: LoadOp, step: nat)
    requires op.count > 0
    ensures Observe(lds, op) == Loaded(op.buffer, op.first, step)
            <==> forall i | 0 <= i < op.count :: Readable(lds, op.At(i), step, op.ready)
    ensures Observe(lds, op).Loaded? || Observe(lds, op) == Garbage
  {
    if forall i | 0 <= i < op.count :: Readable(lds, op.At(i), step, op.ready) {
      assert Readable(lds, op.At(0), step, op.ready);
    }
    if Observe(lds, op).Loaded? {
      var s := Observe(lds, op).step;
      forall i | 0 <= i < op.count
        ensures Readable(lds, op.At(i), s, op.ready)
      {
        assert lds[op.At(0)].step == s;
      }
      assert Readable(lds, op.At(0), s, op.ready);
    }
  }

  /** A cell still in flight, or settled by another barrier, makes a load garbage. */
  lemma NotReadyIsGarbage(lds: Lds, op: LoadOp, i: nat)
    requires i < op.count && (op.At(i) in lds && lds[op.At(i)].Settled? ==> lds[op.At(i)].barrier != op.ready)
    ensures Observe(lds, op) == Garbage
  {
    assert forall s: nat :: !Readable(lds, op.At(i), s, op.ready);
  }

  /**
   Behind a barrier, a load of cells that a request covers is worth the request's step if the barrier joins the
   request's token, and nothing if it does not.
   */
  lemma PublishedIffJoined(lds: Lds, r: Request, token: Value, tokens: seq<Value>, barrier: Value, op: LoadOp)
    requires op.count > 0 && op.ready == barrier
    requires forall i | 0 <= i < op.count :: op.At(i) in lds && r.Writes(op.At(i))
    ensures Observe(Settle(Issue(lds, r, token), tokens, barrier), op)
            == if token in tokens then Loaded(op.buffer, op.first, r.step) else Garbage
  {
    var after := Settle(Issue(lds, r, token), tokens, barrier);
    assert op.At(0) in lds;
    if token in tokens {
      forall i | 0 <= i < op.count ensures Readable(after, op.At(i), r.step, barrier) {
        assert op.At(i) in lds;
      }
      ObserveExact(after, op, r.step);
    } else {
      NotReadyIsGarbage(after, op, 0);
    }
  }

  /** `n` operations issued at one moment. */
  function Stamps(at: nat, n: nat): seq<nat> { seq(n, i requires i >= 0 => at) }

  lemma StampsJoin(at: nat, n: nat, m: nat)
    ensures Stamps(at, n) + Stamps(at, m) == Stamps(at, n + m)
    ensures Stamps(at, 0) == [] && Stamps(at, 1) == [at]
  {}

  class Machine {
    var lds: Lds
    var nextToken: nat
    var loads: seq<Read>
    var writes: seq<Request>
    /** How many MMAs have been issued, and how many had been before each load and write, in their common order. */
    var mmas: nat
    ghost var stamps: seq<nat>

    constructor (cells: set<Cell>)
      ensures lds == map c | c in cells :: Empty
      ensures loads == [] && writes == [] && mmas == 0 && stamps == []
    {
      lds := map c | c in cells :: Empty;
      nextToken := 0;
      loads := [];
      writes := [];
      mmas := 0;
      stamps := [];
    }

    /** A DMA into LDS, or a store to it: the covered cells are in flight until a barrier. */
    method Write(r: Request) returns (token: Value)
      modifies this
      ensures token == Token(old(nextToken)) && nextToken == old(nextToken) + 1
      ensures lds == Issue(old(lds), r, token)
      ensures writes == old(writes) + [r] && loads == old(loads)
      ensures mmas == old(mmas) && stamps == old(stamps) + [mmas]
    {
      token := Token(nextToken);
      nextToken := nextToken + 1;
      lds := Issue(lds, r, token);
      writes := writes + [r];
      stamps := stamps + [mmas];
    }

    method Barrier(tokens: seq<Value>) returns (ready: Value)
      modifies this
      ensures ready == Token(old(nextToken)) && nextToken == old(nextToken) + 1
      ensures lds == Settle(old(lds), tokens, ready)
      ensures writes == old(writes) && loads == old(loads) && mmas == old(mmas) && stamps == old(stamps)
    {
      ready := Token(nextToken);
      nextToken := nextToken + 1;
      lds := Settle(lds, tokens, ready);
    }

    method Load(op: LoadOp) returns (v: Value)
      modifies this`loads, this`stamps
      ensures v == Observe(lds, op)
      ensures loads == old(loads) + [Read(op, v, |writes|)] && stamps == old(stamps) + [mmas]
    {
      v := Observe(lds, op);
      loads := loads + [Read(op, v, |writes|)];
      stamps := stamps + [mmas];
    }

    method IssueMma(a: Value, aScale: Value, aSel: nat, b: Value, bScale: Value, bSel: nat, acc: Value)
      returns (v: Value)
      modifies this`mmas
      ensures v == Mma(a, aScale, aSel, b, bScale, bSel, acc) && mmas == old(mmas) + 1
    {
      v := Mma(a, aScale, aSel, b, bScale, bSel, acc);
      mmas := mmas + 1;
    }
  }
}
