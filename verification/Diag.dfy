/**
 The diagnostics list of the wavec front end: records linked in emission order, with the records and the
 copied messages in the arena.
 */
module Diagnostics {
  import opened ArenaAllocator
  import opened Prelude
  import MixedRadix

  datatype Severity = Note | Warning | Error

  datatype Span = Span(offset: nat, length: nat, line: nat, column: nat)

  /** Size of a record and alignment of a pointer on a 64-bit host. */
  const DIAG_BYTES: nat := 40
  const POINTER_BYTES: nat := 8

  /** A record stored in the arena at `addr`; `text` is what its message copy at `message` holds. */
  class Diag {
    const addr: nat
    var severity: Severity
    var message: nat
    var text: string
    var span: Span
    var next: Diag?

    /** Everything but the link. */
    ghost function Contents(): (Severity, nat, string, Span)
      reads this
    {
      (severity, message, text, span)
    }

    constructor (addr: nat)
      ensures this.addr == addr
    {
      this.addr := addr;
    }
  }

  /** The errors among the severities emitted. */
  function Errors(emitted: seq<Severity>): nat {
    if emitted == [] then 0
    else Errors(emitted[..|emitted| - 1]) + (if emitted[|emitted| - 1].Error? then 1 else 0)
  }

  lemma {:induction false} ErrorsIffEmitted(emitted: seq<Severity>)
    ensures Errors(emitted) <= |emitted| && (Errors(emitted) > 0 <==> Error in emitted)
  {
    if emitted != [] {
      ErrorsIffEmitted(emitted[..|emitted| - 1]);
      assert emitted == emitted[..|emitted| - 1] + [emitted[|emitted| - 1]];
    }
  }

  lemma ErrorsNext(emitted: seq<Severity>, severity: Severity)
    ensures Errors(emitted + [severity]) == Errors(emitted) + if severity.Error? then 1 else 0
  {
    assert (emitted + [severity])[..|emitted|] == emitted;
  }

  /** A counter of the host's size type wraps. */
  function Wrapped(n: nat): nat { n % (SIZE_MAX + 1) }

  lemma WrappedNext(n: nat)
    ensures Wrapped(Wrapped(n) + 1) == Wrapped(n + 1)
  {
    MixedRadix.RemainderNext(n, SIZE_MAX + 1);
  }

  /** A missing message is copied as the empty one. */
  function Text(message: Option<string>): string {
    match message
    case None => ""
    case Some(s) => s
  }

  /** Room for the record, and then for the message with its terminator. */
  predicate RecordFits(used: nat, capacity: nat) { Fits(used, capacity, DIAG_BYTES, POINTER_BYTES) }

  function AfterRecord(used: nat): nat { RoundUp(used, POINTER_BYTES) + DIAG_BYTES }

  predicate MessageFits(used: nat, capacity: nat, text: string) { AfterRecord(used) + |text| + 1 <= capacity }

  /** `arena_strdup`: room for the text and its terminator, byte aligned. */
  method Strdup(arena: Arena?, message: Option<string>) returns (copy: nat)
    requires arena != null ==> arena.Valid()
    requires |Text(message)| < SIZE_MAX
    modifies arena
    ensures arena != null ==> arena.Valid() && arena.base == old(arena.base) && arena.capacity == old(arena.capacity)
    ensures copy == 0 <==>
            arena == null || arena.base == 0 || old(arena.used) + |Text(message)| + 1 > arena.capacity
    ensures arena != null && copy == 0 ==> arena.used == old(arena.used) && arena.blocks == old(arena.blocks)
    ensures copy != 0 ==> && arena.used == old(arena.used) + |Text(message)| + 1
                          && arena.blocks == old(arena.blocks) + [Block(copy, |Text(message)| + 1, 1)]
  {
    hide PowerOfTwo, RoundUp;
    if arena != null {
      RoundUpBounds(arena.used, 1);
    }
    copy := Alloc(arena, |Text(message)| + 1, 1);
  }

  /** The allocations of `diag_emit`: record, then message; `copy` is 0 if either fails. */
  method Reserve(arena: Arena?, message: Option<string>) returns (addr: nat, copy: nat, ghost more: seq<Block>)
    requires arena != null ==> arena.Valid()
    requires |Text(message)| < SIZE_MAX
    modifies arena
    ensures arena != null ==> && arena.Valid() && arena.base == old(arena.base) && arena.capacity == old(arena.capacity)
                              && arena.blocks == old(arena.blocks) + more && arena.used >= old(arena.used)
    ensures copy != 0 <==>
            && arena != null && arena.base != 0
            && RecordFits(old(arena.used), arena.capacity)
            && MessageFits(old(arena.used), arena.capacity, Text(message))
    ensures copy == 0 && arena != null ==>
            arena.used == if arena.base != 0 && RecordFits(old(arena.used), arena.capacity)
                          then AfterRecord(old(arena.used)) else old(arena.used)
    ensures copy != 0 ==>
            && arena.used == AfterRecord(old(arena.used)) + |Text(message)| + 1
            && arena.used >= old(arena.used) + DIAG_BYTES && addr >= arena.base + old(arena.used)
            && more == [Block(addr, DIAG_BYTES, POINTER_BYTES), Block(copy, |Text(message)| + 1, 1)]
  {
    hide RoundUp, PowerOfTwo, Arena.Inside, Arena.Aligned, Arena.Ascending;
    copy, more := 0, [];
    if arena != null {
      RoundUpBounds(arena.used, POINTER_BYTES);
    }
    addr := Alloc(arena, DIAG_BYTES, POINTER_BYTES);
    if addr != 0 {
      more := [Block(addr, DIAG_BYTES, POINTER_BYTES)];
      copy := Strdup(arena, message);
      if copy != 0 {
        more := more + [Block(copy, |Text(message)| + 1, 1)];
      }
    }
  }

  class DiagList {
    var arena: Arena?
    var head: Diag?
    var tail: Diag?
    var count: nat
    var errorCount: nat
    /** The stored records, oldest first, and the severities of every emission. */
    ghost var nodes: seq<Diag>
    ghost var emitted: seq<Severity>

    /** The chain from `head` visits exactly `nodes` and ends. */
    ghost predicate Linked()
      reads this`head, this`tail, this`nodes, nodes
    {
      && (nodes == [] ==> head == null && tail == null)
      && (nodes != [] ==> head == nodes[0] && tail == nodes[|nodes| - 1] && nodes[|nodes| - 1].next == null)
      && forall i :: 0 <= i < |nodes| - 1 ==> nodes[i].next == nodes[i + 1]
    }

    /** Records are at ascending addresses, so none occurs twice; each and its message is one of the blocks. */
    ghost predicate Stored(blocks: seq<Block>)
      reads this`nodes, nodes
    {
      && (forall i, j :: 0 <= i < j < |nodes| ==> nodes[i].addr < nodes[j].addr)
      && forall i :: 0 <= i < |nodes| ==>
           && Block(nodes[i].addr, DIAG_BYTES, POINTER_BYTES) in blocks
           && Block(nodes[i].message, |nodes[i].text| + 1, 1) in blocks
    }

    lemma StoredGrows(blocks: seq<Block>, more: seq<Block>)
      requires Stored(blocks)
      ensures Stored(blocks + more)
    {}

    /** An address behind every stored record. */
    ghost predicate Behind(addr: nat)
      reads this`nodes, nodes
    {
      forall i :: 0 <= i < |nodes| ==> nodes[i].addr < addr
    }

    lemma EndIsBehind()
      requires arena != null && arena.Valid() && Stored(arena.blocks)
      ensures Behind(arena.base + arena.used)
    {
      forall i | 0 <= i < |nodes|
        ensures nodes[i].addr < arena.base + arena.used
      {
        assert Block(nodes[i].addr, DIAG_BYTES, POINTER_BYTES) in arena.blocks;
      }
    }

    lemma BehindGrows(low: nat, high: nat)
      requires Behind(low) && low <= high
      ensures Behind(high)
    {}

    ghost predicate Counted()
      reads this`errorCount, this`emitted
    {
      errorCount == Wrapped(Errors(emitted))
    }

    ghost predicate Valid()
      reads this, arena, nodes
    {
      && Linked() && count == |nodes|
      && Counted()
      && (arena == null ==> nodes == [])
      && (arena != null ==> arena.Valid() && Stored(arena.blocks) && DIAG_BYTES * |nodes| <= arena.used)
    }

    /** `diag_list_init` */
    constructor (arena: Arena?)
      requires arena != null ==> arena.Valid()
      ensures Valid() && this.arena == arena && nodes == [] && emitted == []
    {
      this.arena, head, tail, count, errorCount, nodes, emitted := arena, null, null, 0, 0, [], [];
    }

    /** The end of `diag_emit`: hang a finished record behind the tail. */
    method Link(node: Diag)
      requires Linked() && count == |nodes| && node !in nodes && node.next == null
      modifies this`head, this`tail, this`count, this`nodes, tail
      ensures Linked() && count == |nodes| && nodes == old(nodes) + [node]
      ensures forall d :: d in nodes ==> d.Contents() == old(d.Contents())
    {
      if tail == null {
        head := node;
      } else {
        tail.next := node;
      }
      tail := node;
      count := count + 1;
      nodes := nodes + [node];
    }

    /** The first statement of `diag_emit`. */
    method CountSeverity(severity: Severity)
      requires Counted()
      modifies this`errorCount, this`emitted
      ensures Counted() && emitted == old(emitted) + [severity]
    {
      hide Errors, Wrapped;
      ErrorsNext(emitted, severity);
      WrappedNext(Errors(emitted));
      if severity.Error? {
        errorCount := Wrapped(errorCount + 1);
      }
      emitted := emitted + [severity];
    }

    /** The second half of `diag_emit`: fill the record in and link it. */
    method Append(addr: nat, copy: nat, severity: Severity, span: Span, text: string) returns (node: Diag)
      requires Valid() && arena != null && Behind(addr) && DIAG_BYTES * (|nodes| + 1) <= arena.used
      requires Block(addr, DIAG_BYTES, POINTER_BYTES) in arena.blocks && Block(copy, |text| + 1, 1) in arena.blocks
      modifies this`head, this`tail, this`count, this`nodes, tail
      ensures Valid() && fresh(node) && nodes == old(nodes) + [node]
      ensures node.Contents() == (severity, copy, text, span)
      ensures forall d :: d in old(nodes) ==> d.Contents() == old(d.Contents())
    {
      hide Counted, Arena.Valid, Linked;
      node := new Diag(addr);
      node.severity, node.message, node.text, node.span, node.next := severity, copy, text, span, null;
      ghost var before := nodes;
      label Made:
      Link(node);
      assert forall i :: 0 <= i < |before| ==> nodes[i] == before[i];
      forall i | 0 <= i < |nodes|
        ensures Block(nodes[i].addr, DIAG_BYTES, POINTER_BYTES) in arena.blocks
        ensures Block(nodes[i].message, |nodes[i].text| + 1, 1) in arena.blocks
      {
        var d := nodes[i];
        assert d.Contents() == old@Made(d.Contents());
      }
      assert Stored(arena.blocks);
    }

    /**
     `diag_emit`. The error is counted first, whatever happens to the record. The record is linked if and only
     if both allocations succeed; when only the message fails, the list is as before but the cursor has moved.
     */
    method Emit(severity: Severity, span: Span, message: Option<string>) returns (node: Diag?)
      requires Valid() && |Text(message)| < SIZE_MAX
      modifies this, arena, tail
      ensures Valid() && arena == old(arena)
      ensures emitted == old(emitted) + [severity]
      ensures node != null <==>
              && arena != null && arena.base != 0
              && RecordFits(old(arena.used), arena.capacity)
              && MessageFits(old(arena.used), arena.capacity, Text(message))
      ensures node == null ==> nodes == old(nodes)
      ensures node == null && arena != null ==>
              arena.used == if arena.base != 0 && RecordFits(old(arena.used), arena.capacity)
                            then AfterRecord(old(arena.used)) else old(arena.used)
      ensures node != null ==>
              && fresh(node) && nodes == old(nodes) + [node]
              && node.Contents() == (severity, node.message, Text(message), span)
              && arena.used == AfterRecord(old(arena.used)) + |Text(message)| + 1
      ensures forall d :: d in old(nodes) ==> d.Contents() == old(d.Contents())
    {
      hide RecordFits, MessageFits, AfterRecord, Text, Counted, Linked, Stored, Behind, Arena.Valid;
      CountSeverity(severity);
      if arena != null {
        EndIsBehind();
      }
      ghost var blocks := if arena == null then [] else arena.blocks;
      var addr, copy, more := Reserve(arena, message);
      if arena != null {
        StoredGrows(blocks, more);
      }
      if copy == 0 {
        return null;
      }
      BehindGrows(old(arena.base + arena.used), addr);
      node := Append(addr, copy, severity, span, Text(message));
    }

    /** `diag_has_errors` */
    predicate HasErrors()
      reads this
    {
      errorCount > 0
    }
  }

  /** Any other allocation from the same arena leaves the list sound. */
  twostate lemma AllocationKeepsList(list: DiagList, more: seq<Block>)
    requires old(list.Valid()) && list.arena != null && unchanged(list) && unchanged(list.nodes)
    requires list.arena.Valid() && list.arena.used >= old(list.arena.used)
    requires list.arena.blocks == old(list.arena.blocks) + more
    ensures list.Valid()
  {
    list.StoredGrows(old(list.arena.blocks), more);
  }

  /**
   Errors are reported if and only if the number emitted is not a multiple of 2^64; so as long as fewer are
   emitted, exactly when an error was ever emitted, stored or dropped.
   */
  lemma HasErrorsIffEmitted(list: DiagList)
    requires list.Valid()
    ensures list.HasErrors() <==> Errors(list.emitted) % (SIZE_MAX + 1) != 0
    ensures |list.emitted| <= SIZE_MAX ==> (list.HasErrors() <==> Error in list.emitted)
  {
    ErrorsIffEmitted(list.emitted);
  }

  /** The counter misleads exactly after a positive multiple of 2^64 errors: then none are reported. */
  lemma HasErrorsExactIff(list: DiagList)
    requires list.Valid()
    ensures (list.HasErrors() <==> Error in list.emitted)
            <==> !(Errors(list.emitted) > 0 && Errors(list.emitted) % (SIZE_MAX + 1) == 0)
  {
    HasErrorsIffEmitted(list);
    ErrorsIffEmitted(list.emitted);
    hide DiagList.Valid;
  }

  /** No record occurs twice in the chain, and the count never reaches the size limit. */
  lemma Acyclic(list: DiagList, i: nat, j: nat)
    requires list.Valid() && i < j < |list.nodes|
    ensures list.nodes[i] != list.nodes[j] && list.count < SIZE_MAX
  {
    assert list.nodes[i].addr < list.nodes[j].addr;
  }

  /** The records reached from `d` by following `next`, at most `fuel` of them. */
  ghost function Chain(d: Diag?, fuel: nat, nodes: set<Diag>): seq<Diag>
    reads nodes
  {
    if d == null || fuel == 0 || d !in nodes then [] else [d] + Chain(d.next, fuel - 1, nodes)
  }

  lemma {:induction false} ChainFrom(list: DiagList, i: nat, fuel: nat, known: set<Diag>)
    requires list.Linked() && i < |list.nodes| && fuel >= |list.nodes| - i
    requires forall j :: 0 <= j < |list.nodes| ==> list.nodes[j] in known
    ensures Chain(list.nodes[i], fuel, known) == list.nodes[i..]
    decreases |list.nodes| - i
  {
    var d, last := list.nodes[i], |list.nodes| - 1;
    if i < last {
      ChainFrom(list, i + 1, fuel - 1, known);
      assert d.next == list.nodes[i + 1];
    } else {
      assert d.next == null && list.nodes[i + 1..] == [];
    }
    hide DiagList.Linked;
    assert list.nodes[i..] == [d] + list.nodes[i + 1..];
  }

  /** Following the links from the head meets every stored record once, in emission order, and stops. */
  lemma WalkMeetsAll(list: DiagList, fuel: nat)
    requires list.Valid() && fuel >= |list.nodes|
    ensures Chain(list.head, fuel, set d | d in list.nodes) == list.nodes
  {
    if list.nodes != [] {
      ChainFrom(list, 0, fuel, set d | d in list.nodes);
    }
  }
}
