/**
 The ATT importer: which memory instruction every wait drains, the expansion of the static
 instructions into the dynamic trace, and the bookkeeping of resolved wave rows.
 */
module AttImport {
  import MixedRadix
  import opened Prelude

  datatype Counter = Lgkm | Vmem | Vscnt

  /** `branch` and `waits` are what the regular expressions find in the instruction's text. */
  datatype Inst = Inst(index: nat, pc: nat, mnemonic: string, branch: Option<nat>, waits: seq<(Counter, nat)>)

  datatype Phase = Unknown | Prologue | Loop | Epilogue

  // -------------------------------------------------------------------- the listing

  /** A listing's instructions, each with its position as index. */
  function Listing(lines: seq<Inst>): (ordered: seq<Inst>)
    ensures |ordered| == |lines|
  {
    seq(|lines|, i requires 0 <= i < |lines| => lines[i].(index := i))
  }

  /**
   `parse_objdump`: a later line with the same PC replaces the earlier one, and the index is the table's size.
   On a listing in address order every instruction is kept and its index is its position.
   */
  method ParseObjdump(lines: seq<Inst>) returns (table: map<nat, Inst>)
    ensures forall i :: 0 <= i < |lines| ==> lines[i].pc in table
    ensures Increasing(lines) ==>
              |table| == |lines| && forall i :: 0 <= i < |lines| ==> table[lines[i].pc] == Listing(lines)[i]
  {
    table := map[];
    for i := 0 to |lines|
      invariant forall j :: 0 <= j < i ==> lines[j].pc in table
      invariant Increasing(lines) ==> |table| == i
      invariant Increasing(lines) && i < |lines| ==> forall pc :: pc in table ==> pc < lines[i].pc
      invariant Increasing(lines) ==> forall j :: 0 <= j < i ==> table[lines[j].pc] == Listing(lines)[j]
    {
      table := table[lines[i].pc := lines[i].(index := |table|)];
    }
  }

  ghost predicate Increasing(lines: seq<Inst>) {
    forall i, j :: 0 <= i < j < |lines| ==> lines[i].pc < lines[j].pc
  }

  /** The instructions sorted by PC, each at the position its index says. */
  ghost predicate InOrder(ordered: seq<Inst>) {
    forall i :: 0 <= i < |ordered| ==> ordered[i].index == i
  }

  // ------------------------------------------------------------------- the loop

  predicate IsBackedge(inst: Inst) { inst.branch.Some? && inst.branch.value >= 0x8000 }
  predicate IsForward(inst: Inst) { inst.branch.Some? && inst.branch.value < 0x8000 }

  function Backedges(ordered: seq<Inst>): seq<nat> {
    if ordered == [] then []
    else (if IsBackedge(ordered[0]) then [ordered[0].index] else []) + Backedges(ordered[1..])
  }

  function Forwards(ordered: seq<Inst>): seq<nat> {
    if ordered == [] then []
    else Forwards(ordered[..|ordered| - 1])
         + (if IsForward(ordered[|ordered| - 1]) then [ordered[|ordered| - 1].index] else [])
  }

  function Min(a: nat, b: nat): nat { if a < b then a else b }

  /** Slices clamp their bounds to the list. */
  function Take<T>(s: seq<T>, n: nat): seq<T> { s[..Min(n, |s|)] }
  function Drop<T>(s: seq<T>, n: nat): seq<T> { s[Min(n, |s|)..] }

  /** The loop's instructions are `start` to `end`, both included. */
  datatype Range = Range(start: nat, end: nat)

  function InferLoop(ordered: seq<Inst>): Option<Range> {
    var backedges := Backedges(ordered);
    if backedges == [] then None
    else
      var exits := Forwards(Take(ordered, backedges[0]));
      if exits == [] then None else Some(Range(exits[|exits| - 1] + 1, backedges[0]))
  }

  lemma {:induction false} FirstBackedge(ordered: seq<Inst>, from: nat) returns (at: nat)
    requires InOrder(ordered) && from <= |ordered|
    ensures from <= at <= |ordered| && forall i :: from <= i < at ==> !IsBackedge(ordered[i])
    ensures if at == |ordered| then Backedges(ordered[from..]) == []
            else IsBackedge(ordered[at]) && Backedges(ordered[from..]) != [] && Backedges(ordered[from..])[0] == at
    decreases |ordered| - from
  {
    at := from;
    if from < |ordered| && !IsBackedge(ordered[from]) {
      assert ordered[from..][1..] == ordered[from + 1..];
      at := FirstBackedge(ordered, from + 1);
    }
  }

  lemma {:induction false} LastForward(ordered: seq<Inst>, n: nat) returns (next: nat)
    requires InOrder(ordered) && n <= |ordered|
    ensures next <= n && forall i :: next <= i < n ==> !IsForward(ordered[i])
    ensures if next == 0 then Forwards(ordered[..n]) == []
            else IsForward(ordered[next - 1]) && Forwards(ordered[..n]) != []
                 && Forwards(ordered[..n])[|Forwards(ordered[..n])| - 1] == next - 1
  {
    next := n;
    if n > 0 {
      assert ordered[..n][..n - 1] == ordered[..n - 1];
      if !IsForward(ordered[n - 1]) {
        next := LastForward(ordered, n - 1);
      }
    }
  }

  /** `start..end` is what lies between the last exit branch before the first back edge and that back edge. */
  ghost predicate IsLoop(ordered: seq<Inst>, start: nat, end: nat) {
    && 0 < start <= end < |ordered|
    && IsBackedge(ordered[end]) && (forall i :: 0 <= i < end ==> !IsBackedge(ordered[i]))
    && IsForward(ordered[start - 1]) && (forall i :: start <= i < end ==> !IsForward(ordered[i]))
  }

  /** A loop is inferred exactly when there is one, its range is well formed, and it is the only candidate. */
  lemma InferredLoop(ordered: seq<Inst>)
    requires InOrder(ordered)
    ensures forall start, end :: InferLoop(ordered) == Some(Range(start, end)) <==> IsLoop(ordered, start, end)
  {
    var end := FirstBackedge(ordered, 0);
    assert ordered[0..] == ordered;
    if end < |ordered| {
      var start := LastForward(ordered, end);
      forall s: nat, e: nat | IsLoop(ordered, s, e)
        ensures s == start && e == end
      {
        assert e == end by {
          assert !(e < end) && !(end < e);
        }
        assert IsForward(ordered[s - 1]);
        assert s <= start;
      }
    }
  }

  function Classify(inst: Inst, loop: Option<Range>): Phase {
    match loop
    case None => Unknown
    case Some(r) =>
      if inst.index < r.start then Prologue else if inst.index <= r.end then Loop else Epilogue
  }

  /** The labels: before the loop, in it, or after it, and unknown without one. */
  lemma PhaseOf(ordered: seq<Inst>, i: nat)
    requires InOrder(ordered) && i < |ordered|
    ensures forall start: nat, end: nat | IsLoop(ordered, start, end) ::
              Classify(ordered[i], InferLoop(ordered))
              == if i < start then Prologue else if end < i then Epilogue else Loop
    ensures (forall start: nat, end: nat :: !IsLoop(ordered, start, end))
            <==> Classify(ordered[i], InferLoop(ordered)) == Unknown
  {
    hide InferLoop, IsLoop;
    InferredLoop(ordered);
    if InferLoop(ordered).Some? {
      var r := InferLoop(ordered).value;
      assert IsLoop(ordered, r.start, r.end);
    }
  }

  // ---------------------------------------------------------------- wait windows

  predicate StartsWithAny(text: string, prefixes: seq<string>) {
    exists i :: 0 <= i < |prefixes| && prefixes[i] <= text
  }

  function Producer(inst: Inst): Option<Counter> {
    if StartsWithAny(inst.mnemonic, ["s_load", "ds_load", "ds_store", "ds_read", "ds_write"]) then Some(Lgkm)
    else if StartsWithAny(inst.mnemonic, ["buffer_load", "global_load", "flat_load"]) then Some(Vmem)
    else if StartsWithAny(inst.mnemonic, ["buffer_store", "global_store", "flat_store"]) then Some(Vscnt)
    else None
  }

  /** An instruction that waits produces nothing. */
  predicate Produces(inst: Inst, c: Counter) { inst.waits == [] && Producer(inst) == Some(c) }

  datatype Window = Window(wait: Inst, phase: Phase, counter: Counter, limit: nat, pending: seq<Inst>,
                           drained: seq<Inst>)

  datatype Site = Site(position: nat, counter: Counter, limit: nat)

  /** The producers of a counter in program order. */
  function Produced(ordered: seq<Inst>, c: Counter): seq<Inst> {
    if ordered == [] then []
    else
      var last := |ordered| - 1;
      Produced(ordered[..last], c) + (if Produces(ordered[last], c) then [ordered[last]] else [])
  }

  /** Everything the windows of a counter drained, in order. */
  function Drained(windows: seq<Window>, c: Counter): seq<Inst> {
    if windows == [] then []
    else
      var last := |windows| - 1;
      Drained(windows[..last], c) + (if windows[last].counter == c then windows[last].drained else [])
  }

  function SitesAt(inst: Inst, position: nat, n: nat): (sites: seq<Site>)
    requires n <= |inst.waits|
    ensures |sites| == n
  {
    seq(n, k requires 0 <= k < n => Site(position, inst.waits[k].0, inst.waits[k].1))
  }

  /** Every wait of the listing, in order. */
  function Sites(ordered: seq<Inst>): seq<Site> {
    if ordered == [] then []
    else
      var last := |ordered| - 1;
      Sites(ordered[..last]) + SitesAt(ordered[last], last, |ordered[last].waits|)
  }

  function Excess(pending: nat, limit: nat): nat { if pending > limit then pending - limit else 0 }

  /** Window `j`: what the counter's producers so far, less those drained before, leave beyond the limit. */
  ghost predicate WindowIs(ordered: seq<Inst>, site: Site, windows: seq<Window>, j: nat)
    requires j < |windows|
  {
    && site.position < |ordered|
    && var w := windows[j];
       var produced := Produced(ordered[..site.position], site.counter);
       var done := |Drained(windows[..j], site.counter)|;
    && w.wait == ordered[site.position] && w.counter == site.counter && w.limit == site.limit
    && w.phase == Classify(w.wait, InferLoop(ordered))
    && done <= |produced| && w.pending == produced[done..]
    && w.drained == w.pending[..Excess(|w.pending|, w.limit)]
  }

  ghost predicate WindowsAre(ordered: seq<Inst>, sites: seq<Site>, windows: seq<Window>) {
    && |windows| == |sites|
    && forall j :: 0 <= j < |windows| ==> WindowIs(ordered, sites[j], windows, j)
  }

  lemma DrainedAppend(windows: seq<Window>, w: Window)
    ensures forall c :: Drained(windows + [w], c) == Drained(windows, c) + if w.counter == c then w.drained else []
  {
    assert (windows + [w])[..|windows|] == windows;
  }

  lemma WindowsEmpty(ordered: seq<Inst>)
    ensures WindowsAre(ordered, [], [])
  {}

  lemma WindowsAppend(ordered: seq<Inst>, sites: seq<Site>, windows: seq<Window>, site: Site, w: Window)
    requires WindowsAre(ordered, sites, windows) && site.position < |ordered|
    requires w.wait == ordered[site.position] && w.counter == site.counter && w.limit == site.limit
    requires w.phase == Classify(w.wait, InferLoop(ordered))
    requires Produced(ordered[..site.position], site.counter) == Drained(windows, site.counter) + w.pending
    requires w.drained == w.pending[..Excess(|w.pending|, w.limit)]
    ensures WindowsAre(ordered, sites + [site], windows + [w])
  {
    forall j | 0 <= j < |windows| + 1
      ensures WindowIs(ordered, (sites + [site])[j], windows + [w], j)
    {
      if j < |windows| {
        assert WindowIs(ordered, sites[j], windows, j);
        assert (windows + [w])[..j] == windows[..j];
      } else {
        assert (windows + [w])[..j] == windows;
      }
    }
  }

  /** What is pending of each counter is what its producers so far leave after the windows so far. */
  ghost predicate Tracks(before: seq<Inst>, windows: seq<Window>, pending: map<Counter, seq<Inst>>) {
    forall c: Counter :: c in pending && Produced(before, c) == Drained(windows, c) + pending[c]
  }

  lemma TracksEmpty(pending: map<Counter, seq<Inst>>)
    requires pending == map[Lgkm := [], Vmem := [], Vscnt := []]
    ensures Tracks([], [], pending)
  {
    forall c: Counter
      ensures c in pending && pending[c] == []
    {
      match c
      case Lgkm =>
      case Vmem =>
      case Vscnt =>
    }
  }

  lemma TracksWindow(before: seq<Inst>, windows: seq<Window>, pending: map<Counter, seq<Inst>>, w: Window, n: nat)
    requires Tracks(before, windows, pending)
    requires w.counter in pending && n <= |pending[w.counter]| && w.drained == pending[w.counter][..n]
    ensures Tracks(before, windows + [w], pending[w.counter := pending[w.counter][n..]])
  {
    DrainedAppend(windows, w);
    hide Produced, Drained;
    assert pending[w.counter] == pending[w.counter][..n] + pending[w.counter][n..];
  }

  lemma ProducedAppend(before: seq<Inst>, inst: Inst)
    ensures forall c :: Produced(before + [inst], c) == Produced(before, c) + if Produces(inst, c) then [inst] else []
    ensures Sites(before + [inst]) == Sites(before) + SitesAt(inst, |before|, |inst.waits|)
  {
    assert (before + [inst])[..|before|] == before;
  }

  /** `build_wait_windows` on the instructions sorted by PC. */
  method BuildWaitWindows(ordered: seq<Inst>) returns (windows: seq<Window>)
    ensures WindowsAre(ordered, Sites(ordered), windows)
  {
    hide InferLoop, WindowsAre, Classify, Produced, Drained, Producer;
    var pending: map<Counter, seq<Inst>> := map[Lgkm := [], Vmem := [], Vscnt := []];
    windows := [];
    var loop := InferLoop(ordered);
    TracksEmpty(pending);
    WindowsEmpty(ordered);
    assert ordered[..0] == [];
    for i := 0 to |ordered|
      invariant Tracks(ordered[..i], windows, pending)
      invariant WindowsAre(ordered, Sites(ordered[..i]), windows)
    {
      var inst := ordered[i];
      assert ordered[..i + 1] == ordered[..i] + [inst];
      ProducedAppend(ordered[..i], inst);
      ghost var before := Sites(ordered[..i]);
      assert before + SitesAt(inst, i, 0) == before;
      if inst.waits != [] {
        for n := 0 to |inst.waits|
          invariant Tracks(ordered[..i], windows, pending)
          invariant WindowsAre(ordered, before + SitesAt(inst, i, n), windows)
        {
          var (counter, limit) := inst.waits[n];
          var current := pending[counter];
          var drainCount := if |current| > limit then |current| - limit else 0;
          var w := Window(inst, Classify(inst, loop), counter, limit, current, current[..drainCount]);
          WindowsAppend(ordered, before + SitesAt(inst, i, n), windows, Site(i, counter, limit), w);
          assert before + SitesAt(inst, i, n + 1) == before + SitesAt(inst, i, n) + [Site(i, counter, limit)];
          TracksWindow(ordered[..i], windows, pending, w, drainCount);
          windows := windows + [w];
          pending := pending[counter := current[drainCount..]];
        }
      } else {
        var counter := Producer(inst);
        if counter.Some? {
          pending := pending[counter.value := pending[counter.value] + [inst]];
        }
      }
    }
    assert ordered[..|ordered|] == ordered;
  }

  /** The windows are determined by the listing. */
  lemma {:induction false} WindowsDetermined(ordered: seq<Inst>, sites: seq<Site>, a: seq<Window>, b: seq<Window>)
    requires WindowsAre(ordered, sites, a) && WindowsAre(ordered, sites, b)
    ensures a == b
  {
    SameUpTo(ordered, sites, a, b, |sites|);
    assert a[..|sites|] == a && b[..|sites|] == b;
  }

  lemma {:induction false} SameUpTo(ordered: seq<Inst>, sites: seq<Site>, a: seq<Window>, b: seq<Window>, n: nat)
    requires WindowsAre(ordered, sites, a) && WindowsAre(ordered, sites, b) && n <= |sites|
    ensures a[..n] == b[..n]
  {
    if n > 0 {
      SameUpTo(ordered, sites, a, b, n - 1);
      assert WindowIs(ordered, sites[n - 1], a, n - 1) && WindowIs(ordered, sites[n - 1], b, n - 1);
      assert a[..n] == a[..n - 1] + [a[n - 1]] && b[..n] == b[..n - 1] + [b[n - 1]];
    }
  }

  lemma {:induction false} ProducedGrows(ordered: seq<Inst>, i: nat, c: Counter)
    requires i <= |ordered|
    ensures Produced(ordered[..i], c) <= Produced(ordered, c)
    decreases |ordered|
  {
    if i == |ordered| {
      assert ordered[..i] == ordered;
    } else {
      var last := |ordered| - 1;
      ProducedGrows(ordered[..last], i, c);
      assert ordered[..last][..i] == ordered[..i];
    }
  }

  /** After window `j` everything drained so far is a prefix of the program-order producers. */
  lemma {:induction false} DrainedInOrder(ordered: seq<Inst>, sites: seq<Site>, windows: seq<Window>, c: Counter,
                                          n: nat)
    requires WindowsAre(ordered, sites, windows) && n <= |windows|
    ensures Drained(windows[..n], c) <= Produced(ordered, c)
  {
    if n > 0 {
      var j := n - 1;
      DrainedInOrder(ordered, sites, windows, c, j);
      assert windows[..n][..j] == windows[..j];
      assert WindowIs(ordered, sites[j], windows, j);
      hide Produced, InferLoop, WindowsAre, Classify;
      if windows[j].counter == c {
        var some := Produced(ordered[..sites[j].position], c);
        ProducedGrows(ordered, sites[j].position, c);
        PrefixGrows(Produced(ordered, c), some, Drained(windows[..j], c), |windows[j].drained|);
      }
    }
  }

  lemma PrefixGrows<T>(all: seq<T>, some: seq<T>, done: seq<T>, taken: nat)
    requires done <= all && some <= all && |done| + taken <= |some|
    ensures done + some[|done|..][..taken] <= all
  {
    assert some[|done|..][..taken] == all[|done|..|done| + taken];
  }

  /**
   Conservation: the drained tuples of a counter's windows, then what is left, are exactly its producers in
   program order, and right after each window at most `limit` of the earlier producers are left.
   */
  lemma Conservation(ordered: seq<Inst>, windows: seq<Window>, c: Counter) returns (left: seq<Inst>)
    requires WindowsAre(ordered, Sites(ordered), windows)
    ensures Drained(windows, c) + left == Produced(ordered, c)
    ensures forall j :: 0 <= j < |windows| ==>
              |windows[j].pending| - |windows[j].drained| == Min(|windows[j].pending|, windows[j].limit)
  {
    DrainedInOrder(ordered, Sites(ordered), windows, c, |windows|);
    assert windows[..|windows|] == windows;
    left := Produced(ordered, c)[|Drained(windows, c)|..];
    forall j | 0 <= j < |windows|
      ensures |windows[j].pending| - |windows[j].drained| == Min(|windows[j].pending|, windows[j].limit)
    {
      assert WindowIs(ordered, Sites(ordered)[j], windows, j);
    }
  }

  /** The wait at `site` asks for producer `q` of its counter: at least `limit` later ones are out already. */
  ghost predicate Demands(ordered: seq<Inst>, site: Site, q: nat) {
    && site.position <= |ordered|
    && q + site.limit < |Produced(ordered[..site.position], site.counter)|
  }

  ghost predicate DemandedBefore(ordered: seq<Inst>, sites: seq<Site>, c: Counter, n: nat, q: nat)
    requires n <= |sites|
  {
    exists j :: 0 <= j < n && sites[j].counter == c && Demands(ordered, sites[j], q)
  }

  lemma DrainedNext(ordered: seq<Inst>, site: Site, windows: seq<Window>, c: Counter, j: nat, q: nat)
    requires j < |windows| && WindowIs(ordered, site, windows, j)
    ensures q < |Drained(windows[..j + 1], c)|
            <==> q < |Drained(windows[..j], c)| || (site.counter == c && Demands(ordered, site, q))
  {
    hide Produced, InferLoop;
    assert windows[..j + 1][..j] == windows[..j];
  }

  lemma {:induction false} DrainedBy(ordered: seq<Inst>, sites: seq<Site>, windows: seq<Window>, c: Counter, n: nat,
                                     q: nat)
    requires WindowsAre(ordered, sites, windows) && n <= |windows|
    ensures q < |Drained(windows[..n], c)| <==> DemandedBefore(ordered, sites, c, n, q)
  {
    if n > 0 {
      DrainedBy(ordered, sites, windows, c, n - 1, q);
      assert WindowIs(ordered, sites[n - 1], windows, n - 1);
      hide WindowIs, WindowsAre, Drained, Demands;
      DrainedNext(ordered, sites[n - 1], windows, c, n - 1, q);
    }
  }

  /** A producer drains in window `j` if and only if `j` is the first wait on its counter that demands it. */
  lemma DrainsAtFirstDemand(ordered: seq<Inst>, windows: seq<Window>, c: Counter, j: nat, q: nat)
    requires WindowsAre(ordered, Sites(ordered), windows) && j < |windows|
    ensures var sites := Sites(ordered);
            && |Drained(windows[..j], c)| <= q < |Drained(windows[..j + 1], c)|
            <==> && sites[j].counter == c && Demands(ordered, sites[j], q)
                 && forall i :: 0 <= i < j && sites[i].counter == c ==> !Demands(ordered, sites[i], q)
  {
    hide Produced, Drained, Sites, Demands;
    DrainedBy(ordered, Sites(ordered), windows, c, j, q);
    DrainedBy(ordered, Sites(ordered), windows, c, j + 1, q);
  }

  // ---------------------------------------------------------------- the dynamic trace

  predicate Emits(inst: Inst) { inst.mnemonic != "s_delay_alu" }

  /** What one instruction leaves in the trace. */
  function Own(inst: Inst): seq<Inst> { if Emits(inst) then [inst] else [] }

  function Emitted(s: seq<Inst>): seq<Inst> {
    if s == [] then [] else Own(s[0]) + Emitted(s[1..])
  }

  /** A list times an integer: nothing when the count is not positive. */
  function Repeat<T>(s: seq<T>, count: int): seq<T>
    decreases if count > 0 then count else 0
  {
    if count <= 0 then [] else s + Repeat(s, count - 1)
  }

  function Expanded(ordered: seq<Inst>, loop: Option<Range>, trip: int): seq<Inst> {
    match loop
    case None => ordered
    case Some(r) =>
      Take(ordered, r.start) + Repeat(Drop(Take(ordered, r.end + 1), r.start), trip) + Drop(ordered, r.end + 1)
  }

  /** `build_dynamic_trace` */
  function DynamicTrace(ordered: seq<Inst>, trip: Option<int>): (r: Option<seq<Inst>>)
    ensures r.Some? <==> trip.Some?
  {
    if trip.None? then None
    else
      Some(Emitted(Expanded(ordered, InferLoop(ordered), trip.value)))
  }

  lemma {:induction false} EmittedConcat(a: seq<Inst>, b: seq<Inst>)
    ensures Emitted(a + b) == Emitted(a) + Emitted(b)
  {
    hide Emitted, Own;
    if a == [] {
      assert a + b == b;
      NoneEmitted();
    } else {
      FirstEmitted(a);
      FirstEmitted(a + b);
      TailOfConcat(a, b);
      EmittedConcat(a[1..], b);
      Joined(Own(a[0]), Emitted(a[1..]), Emitted(b));
    }
  }

  lemma NoneEmitted()
    ensures Emitted([]) == []
  {}

  lemma FirstEmitted(s: seq<Inst>)
    requires s != []
    ensures Emitted(s) == Own(s[0]) + Emitted(s[1..])
  {}

  lemma TailOfConcat<T>(a: seq<T>, b: seq<T>)
    requires a != []
    ensures (a + b)[0] == a[0] && (a + b)[1..] == a[1..] + b
  {}

  lemma {:induction false} EmittedRepeat(s: seq<Inst>, count: int)
    ensures Emitted(Repeat(s, count)) == Repeat(Emitted(s), count)
    decreases if count > 0 then count else 0
  {
    if count > 0 {
      EmittedRepeat(s, count - 1);
      EmittedConcat(s, Repeat(s, count - 1));
    }
  }

  /** Prologue, then the loop body once per trip, then the epilogue, each without the silent instructions. */
  lemma TraceShape(ordered: seq<Inst>, trip: int)
    requires InOrder(ordered)
    ensures match InferLoop(ordered)
            case None => DynamicTrace(ordered, Some(trip)) == Some(Emitted(ordered))
            case Some(r) =>
              && 0 < r.start <= r.end < |ordered|
              && DynamicTrace(ordered, Some(trip))
                 == Some(Emitted(ordered[..r.start]) + Repeat(Emitted(ordered[r.start..r.end + 1]), trip)
                         + Emitted(ordered[r.end + 1..]))
  {
    InferredLoop(ordered);
    match InferLoop(ordered)
    case None =>
    case Some(r) =>
      var start, end := r.start, r.end;
      assert IsLoop(ordered, start, end);
      var body := ordered[start..end + 1];
      assert Drop(Take(ordered, end + 1), start) == body;
      EmittedConcat(ordered[..start] + Repeat(body, trip), ordered[end + 1..]);
      EmittedConcat(ordered[..start], Repeat(body, trip));
      EmittedRepeat(body, trip);
  }

  lemma {:induction false} EmittedCount(s: seq<Inst>, x: Inst)
    ensures multiset(Emitted(s))[x] == if Emits(x) then multiset(s)[x] else 0
  {
    if s != [] {
      EmittedCount(s[1..], x);
      assert s == [s[0]] + s[1..];
    }
  }

  lemma {:induction false} RepeatCount<T>(s: seq<T>, count: int, x: T)
    requires multiset(s)[x] <= 1
    ensures multiset(Repeat(s, count))[x] == if multiset(s)[x] == 1 && count > 0 then count else 0
    decreases if count > 0 then count else 0
  {
    if count > 0 {
      RepeatCount(s, count - 1, x);
    }
  }

  lemma CountOfThree<T>(a: seq<T>, b: seq<T>, c: seq<T>, x: T)
    ensures multiset(a + b + c)[x] == multiset(a)[x] + multiset(b)[x] + multiset(c)[x]
  {}

  /** An instruction of an ordered listing occurs once, in the slice its index falls in. */
  lemma {:induction false} OccursOnce(ordered: seq<Inst>, lo: nat, hi: nat, x: Inst)
    requires InOrder(ordered) && lo <= hi <= |ordered| && x.index < |ordered| && ordered[x.index] == x
    ensures multiset(ordered[lo..hi])[x] == if lo <= x.index < hi then 1 else 0
    decreases hi - lo
  {
    if lo < hi {
      OccursOnce(ordered, lo, hi - 1, x);
      assert ordered[lo..hi] == ordered[lo..hi - 1] + [ordered[hi - 1]];
    }
  }

  lemma SliceCount(ordered: seq<Inst>, lo: nat, hi: nat, i: nat)
    requires InOrder(ordered) && lo <= hi <= |ordered| && i < |ordered|
    ensures multiset(Emitted(ordered[lo..hi]))[ordered[i]] == if Emits(ordered[i]) && lo <= i < hi then 1 else 0
  {
    EmittedCount(ordered[lo..hi], ordered[i]);
    OccursOnce(ordered, lo, hi, ordered[i]);
  }

  /** How often an instruction is executed and seen: a silent one never, one of the loop once a trip. */
  ghost predicate ExecutedTimes(ordered: seq<Inst>, trip: int, i: nat, times: nat)
    requires i < |ordered|
  {
    times == if ordered[i].mnemonic == "s_delay_alu" then 0
             else if exists start: nat, end: nat :: IsLoop(ordered, start, end) && start <= i <= end then
               if trip > 0 then trip else 0
             else 1
  }

  /** Every instruction occurs in the trace as often as it is executed. */
  lemma TraceCounts(ordered: seq<Inst>, trip: int, i: nat)
    requires InOrder(ordered) && i < |ordered|
    ensures ExecutedTimes(ordered, trip, i, multiset(DynamicTrace(ordered, Some(trip)).value)[ordered[i]])
  {
    hide InferLoop, IsLoop, DynamicTrace;
    InferredLoop(ordered);
    var times := CountInTrace(ordered, trip, i);
    match InferLoop(ordered)
    case None =>
    case Some(r) =>
      assert IsLoop(ordered, r.start, r.end);
  }

  lemma CountInTrace(ordered: seq<Inst>, trip: int, i: nat) returns (times: nat)
    requires InOrder(ordered) && i < |ordered|
    ensures times == multiset(DynamicTrace(ordered, Some(trip)).value)[ordered[i]]
    ensures times == if !Emits(ordered[i]) then 0
                     else match InferLoop(ordered)
                          case None => 1
                          case Some(r) => if r.start <= i <= r.end then if trip > 0 then trip else 0 else 1
  {
    hide *;
    times := multiset(DynamicTrace(ordered, Some(trip)).value)[ordered[i]];
    TraceShape(ordered, trip);
    match InferLoop(ordered)
    case None =>
      SliceCount(ordered, 0, |ordered|, i);
      WholeSlices(ordered, 0, |ordered|);
    case Some(r) =>
      SliceCount(ordered, 0, r.start, i);
      SliceCount(ordered, r.start, r.end + 1, i);
      SliceCount(ordered, r.end + 1, |ordered|, i);
      WholeSlices(ordered, r.start, r.end + 1);
      CountOfTrips(Emitted(ordered[..r.start]), Emitted(ordered[r.start..r.end + 1]), trip,
                   Emitted(ordered[r.end + 1..]), ordered[i]);
  }

  lemma WholeSlices<T>(s: seq<T>, i: nat, j: nat)
    requires i <= |s| && j <= |s|
    ensures s[0..i] == s[..i] && s[j..|s|] == s[j..] && s[0..|s|] == s
  {}

  lemma CountOfTrips<T>(before: seq<T>, body: seq<T>, trip: int, after: seq<T>, x: T)
    requires multiset(body)[x] <= 1
    ensures multiset(before + Repeat(body, trip) + after)[x]
            == multiset(before)[x] + (if multiset(body)[x] == 1 && trip > 0 then trip else 0) + multiset(after)[x]
  {
    hide Repeat;
    RepeatCount(body, trip, x);
    CountOfThree(before, Repeat(body, trip), after, x);
  }

  lemma {:induction false} EmittedFrom(s: seq<Inst>, t: int)
    requires 0 <= t < |Emitted(s)|
    ensures Emitted(s)[t] in s && Emitted(s)[t].mnemonic != "s_delay_alu"
  {
    if !(Emits(s[0]) && t == 0) {
      EmittedFrom(s[1..], if Emits(s[0]) then t - 1 else t);
    }
  }

  lemma {:induction false} RepeatFrom<T>(s: seq<T>, count: int, t: int)
    requires 0 <= t < |Repeat(s, count)|
    ensures Repeat(s, count)[t] in s
    decreases if count > 0 then count else 0
  {
    if t >= |s| {
      RepeatFrom(s, count - 1, t - |s|);
    }
  }

  lemma ExpandedFrom(ordered: seq<Inst>, loop: Option<Range>, trip: int, u: int)
    requires 0 <= u < |Expanded(ordered, loop, trip)|
    ensures Expanded(ordered, loop, trip)[u] in ordered
  {
    if loop.Some? {
      var before := Take(ordered, loop.value.start);
      var body := Drop(Take(ordered, loop.value.end + 1), loop.value.start);
      var repeated := Repeat(body, trip);
      hide Repeat;
      if |before| <= u < |before| + |repeated| {
        RepeatFrom(body, trip, u - |before|);
      }
    }
  }

  /** Position `t` of a repeated list is position t mod its length of the list. */
  lemma {:induction false} RepeatAt<T>(s: seq<T>, count: int, round: nat, u: nat, t: nat)
    requires round < count && u < |s| && t == round * |s| + u
    ensures t < |Repeat(s, count)| && Repeat(s, count)[t] == s[u]
    decreases round
  {
    if round > 0 {
      MixedRadix.Distributes(round - 1, 1, |s|);
      RepeatAt(s, count - 1, round - 1, u, t - |s|);
    }
  }

  lemma InMiddle<T>(a: seq<T>, b: seq<T>, c: seq<T>, at: nat)
    requires at < |b|
    ensures |a| + at < |a + b + c| && (a + b + c)[|a| + at] == b[at]
  {}

  /** Trip `round` of the loop is the loop's visible instructions again, at their own place in the trace. */
  lemma TripAt(ordered: seq<Inst>, trip: int, start: nat, end: nat, round: nat, u: nat, at: nat)
    requires InOrder(ordered) && IsLoop(ordered, start, end) && round < trip && start <= end < |ordered|
    requires u < |Emitted(ordered[start..end + 1])| && at == round * |Emitted(ordered[start..end + 1])| + u
    ensures var trace := DynamicTrace(ordered, Some(trip)).value;
            && |Emitted(ordered[..start])| + at < |trace|
            && trace[|Emitted(ordered[..start])| + at] == Emitted(ordered[start..end + 1])[u]
  {
    hide *;
    InferredLoop(ordered);
    assert InferLoop(ordered) == Some(Range(start, end));
    TraceShape(ordered, trip);
    RepeatAt(Emitted(ordered[start..end + 1]), trip, round, u, at);
    InMiddle(Emitted(ordered[..start]), Repeat(Emitted(ordered[start..end + 1]), trip),
             Emitted(ordered[end + 1..]), at);
  }

  /** The trace holds visible instructions of the listing only. */
  lemma TraceFromListing(ordered: seq<Inst>, trip: int, t: int)
    requires 0 <= t < |DynamicTrace(ordered, Some(trip)).value|
    ensures DynamicTrace(ordered, Some(trip)).value[t] in ordered
    ensures DynamicTrace(ordered, Some(trip)).value[t].mnemonic != "s_delay_alu"
  {
    hide Expanded, Emitted, InferLoop;
    var expanded := Expanded(ordered, InferLoop(ordered), trip);
    EmittedFrom(expanded, t);
    var u :| 0 <= u < |expanded| && expanded[u] == Emitted(expanded)[t];
    ExpandedFrom(ordered, InferLoop(ordered), trip, u);
  }

  // -------------------------------------------------------------------- wave rows

  /** A row of a wave file; rows shorter than five cells carry nothing else. */
  datatype Row = Row(cells: nat, time: real, stall: real, duration: real, line: int)

  datatype WaveStats = WaveStats(hits: nat, duration: real, stall: real, firstTime: real)

  datatype Outcome = Unresolved | ByCode(pc: nat) | ByPosition(pc: nat)

  /** What an outcome is counted under. */
  datatype Tally = AsUnresolved | AsCode | AsPosition | AtPc(pc: nat)
  {
    predicate Has(o: Outcome) {
      match this
      case AsUnresolved => o.Unresolved?
      case AsCode => o.ByCode?
      case AsPosition => o.ByPosition?
      case AtPc(p) => !o.Unresolved? && o.pc == p
    }
  }

  /** `resolve_wave_pc`: the code map first, then, if allowed, the position in the trace. */
  function ResolveWavePc(row: Row, idx: nat, lines: map<int, nat>, trace: Option<seq<Inst>>, usePosition: bool)
      : (Option<nat>, bool)
    requires usePosition ==> trace.Some? && idx < |trace.value|
  {
    var pc := if row.line != 0 && row.line in lines then Some(lines[row.line]) else None;
    if pc.Some? || !usePosition then (pc, false) else (Some(trace.value[idx].pc), true)
  }

  function OutcomeOf(row: Row, idx: nat, statics: set<nat>, lines: map<int, nat>, trace: Option<seq<Inst>>,
                     usePosition: bool): Outcome
    requires usePosition ==> trace.Some? && idx < |trace.value|
  {
    if row.cells < 5 then Unresolved
    else
      var (pc, byPosition) := ResolveWavePc(row, idx, lines, trace, usePosition);
      if pc.None? || pc.value !in statics then Unresolved
      else if byPosition then ByPosition(pc.value) else ByCode(pc.value)
  }

  predicate UsesPosition(rows: seq<Row>, trace: Option<seq<Inst>>) { trace.Some? && |rows| == |trace.value| }

  function Outcomes(rows: seq<Row>, statics: set<nat>, lines: map<int, nat>, trace: Option<seq<Inst>>)
      : (out: seq<Outcome>)
    ensures |out| == |rows|
  {
    seq(|rows|, i requires 0 <= i < |rows| => OutcomeOf(rows[i], i, statics, lines, trace, UsesPosition(rows, trace)))
  }

  function One(o: Outcome, t: Tally): nat { if t.Has(o) then 1 else 0 }

  function Count(out: seq<Outcome>, t: Tally): nat {
    if out == [] then 0 else Count(out[..|out| - 1], t) + One(out[|out| - 1], t)
  }

  datatype Measure = Duration | Stall | Time

  function Measured(row: Row, m: Measure): real {
    match m
    case Duration => row.duration
    case Stall => row.stall
    case Time => row.time
  }

  /** What the statistics have summed for a PC. */
  function Kept(stats: map<nat, WaveStats>, pc: nat, m: Measure): real {
    if pc !in stats then 0.0
    else
      match m
      case Duration => stats[pc].duration
      case Stall => stats[pc].stall
      case Time => stats[pc].firstTime
  }

  function Share(row: Row, o: Outcome, pc: nat, m: Measure): real {
    if AtPc(pc).Has(o) then Measured(row, m) else 0.0
  }

  /** The sum of a measure over the rows resolved to a PC. */
  function Sum(rows: seq<Row>, out: seq<Outcome>, pc: nat, m: Measure): real
    requires |rows| == |out|
  {
    if rows == [] then 0.0
    else
      var n := |rows| - 1;
      Sum(rows[..n], out[..n], pc, m) + Share(rows[n], out[n], pc, m)
  }

  lemma SumNext(rows: seq<Row>, out: seq<Outcome>, i: nat)
    requires |rows| == |out| && i < |rows|
    ensures forall pc, m :: Sum(rows[..i + 1], out[..i + 1], pc, m)
                            == Sum(rows[..i], out[..i], pc, m) + Share(rows[i], out[i], pc, m)
  {
    hide Share;
    assert rows[..i + 1][..i] == rows[..i] && out[..i + 1][..i] == out[..i];
  }

  function Hits(stats: map<nat, WaveStats>, pc: nat): nat { if pc in stats then stats[pc].hits else 0 }

  lemma CountNext(out: seq<Outcome>, i: nat)
    requires i < |out|
    ensures forall t :: Count(out[..i + 1], t) == Count(out[..i], t) + One(out[i], t)
  {
    assert out[..i + 1][..i] == out[..i];
  }

  lemma CountOne(out: seq<Outcome>, i: nat, t: Tally)
    requires i < |out|
    ensures Count(out[..i + 1], t) == Count(out[..i], t) + One(out[i], t)
  {
    CountNext(out, i);
    hide Count, One;
  }

  lemma OutcomeAt(rows: seq<Row>, statics: set<nat>, lines: map<int, nat>, trace: Option<seq<Inst>>, i: nat)
    requires i < |rows|
    ensures Outcomes(rows, statics, lines, trace)[i]
            == OutcomeOf(rows[i], i, statics, lines, trace, UsesPosition(rows, trace))
  {
    hide OutcomeOf;
  }

  /** The statistics have counted the given rows: their hits and their measures, by PC. */
  ghost predicate Tallied(stats: map<nat, WaveStats>, stats': map<nat, WaveStats>, rows: seq<Row>, out: seq<Outcome>)
    requires |rows| == |out|
  {
    && (forall p :: Hits(stats', p) == Hits(stats, p) + Count(out, AtPc(p)))
    && forall p, m :: Kept(stats', p, m) == Kept(stats, p, m) + Sum(rows, out, p, m)
  }

  lemma NothingTallied(stats: map<nat, WaveStats>, rows: seq<Row>, out: seq<Outcome>)
    requires |rows| == |out|
    ensures Tallied(stats, stats, rows[..0], out[..0])
  {}

  lemma TalliedNext(stats: map<nat, WaveStats>, before: map<nat, WaveStats>, after: map<nat, WaveStats>,
                    rows: seq<Row>, out: seq<Outcome>, i: nat)
    requires |rows| == |out| && i < |rows| && Tallied(stats, before, rows[..i], out[..i])
    requires forall p :: Hits(after, p) == Hits(before, p) + One(out[i], AtPc(p))
    requires forall p, m :: Kept(after, p, m) == Kept(before, p, m) + Share(rows[i], out[i], p, m)
    ensures Tallied(stats, after, rows[..i + 1], out[..i + 1])
  {
    CountNext(out, i);
    SumNext(rows, out, i);
    hide Count, One, Hits, Sum, Share, Kept;
  }

  lemma {:induction false} CountSplits(out: seq<Outcome>)
    ensures Count(out, AsUnresolved) + Count(out, AsCode) + Count(out, AsPosition) == |out|
  {
    if out != [] {
      CountSplits(out[..|out| - 1]);
    }
  }

  /** `ImportSummary`, the fields the wave rows change. */
  class ImportSummary {
    var waveFiles: nat
    var waveRows: nat
    var waveResolved: nat
    var waveCodeResolved: nat
    var wavePositionResolved: nat
    var waveUnresolved: nat
    var wavePositionMismatched: nat

    constructor ()
      ensures waveFiles == waveRows == waveResolved == waveCodeResolved == wavePositionResolved == 0
      ensures waveUnresolved == wavePositionMismatched == 0
      ensures Balanced()
    {
      waveFiles, waveRows, waveResolved, waveCodeResolved := 0, 0, 0, 0;
      wavePositionResolved, waveUnresolved, wavePositionMismatched := 0, 0, 0;
    }

    predicate Balanced()
      reads this
    {
      waveRows == waveResolved + waveUnresolved && waveResolved == waveCodeResolved + wavePositionResolved
    }

    /** `add_wave_row` */
    method AddWaveRow(stats: map<nat, WaveStats>, pc: nat, row: Row, byPosition: bool)
      returns (stats': map<nat, WaveStats>)
      modifies this`waveResolved, this`waveCodeResolved, this`wavePositionResolved
      ensures waveResolved == old(waveResolved) + 1
      ensures wavePositionResolved == old(wavePositionResolved) + (if byPosition then 1 else 0)
      ensures waveCodeResolved == old(waveCodeResolved) + (if byPosition then 0 else 1)
      ensures forall p :: Hits(stats', p) == Hits(stats, p) + if p == pc then 1 else 0
      ensures forall p :: p != pc && p in stats ==> p in stats' && stats'[p] == stats[p]
      ensures forall p, m :: Kept(stats', p, m) == Kept(stats, p, m) + if p == pc then Measured(row, m) else 0.0
      ensures var s := if pc in stats then stats[pc] else WaveStats(0, 0.0, 0.0, 0.0);
              pc in stats' && stats'[pc].duration - s.duration == row.duration
              && stats'[pc].stall - s.stall == row.stall && stats'[pc].firstTime - s.firstTime == row.time
    {
      waveResolved := waveResolved + 1;
      if byPosition {
        wavePositionResolved := wavePositionResolved + 1;
      } else {
        waveCodeResolved := waveCodeResolved + 1;
      }
      var s := if pc in stats then stats[pc] else WaveStats(0, 0.0, 0.0, 0.0);
      stats' := stats[pc := WaveStats(s.hits + 1, s.duration + row.duration, s.stall + row.stall,
                                      s.firstTime + row.time)];
    }

    /** The body of `parse_wave_json`'s loop over rows. */
    method ParseRow(stats: map<nat, WaveStats>, row: Row, idx: nat, statics: set<nat>, lines: map<int, nat>,
                    trace: Option<seq<Inst>>, usePosition: bool) returns (stats': map<nat, WaveStats>)
      requires usePosition ==> trace.Some? && idx < |trace.value|
      modifies this`waveResolved, this`waveCodeResolved, this`wavePositionResolved, this`waveUnresolved
      ensures waveResolved - waveCodeResolved - wavePositionResolved
              == old(waveResolved) - old(waveCodeResolved) - old(wavePositionResolved)
      ensures var o := OutcomeOf(row, idx, statics, lines, trace, usePosition);
              && waveUnresolved == old(waveUnresolved) + One(o, AsUnresolved)
              && waveCodeResolved == old(waveCodeResolved) + One(o, AsCode)
              && wavePositionResolved == old(wavePositionResolved) + One(o, AsPosition)
              && (forall p :: Hits(stats', p) == Hits(stats, p) + One(o, AtPc(p)))
              && forall p, m :: Kept(stats', p, m) == Kept(stats, p, m) + Share(row, o, p, m)
    {
      stats' := stats;
      if row.cells < 5 {
        waveUnresolved := waveUnresolved + 1;
        return;
      }
      var (pc, byPosition) := ResolveWavePc(row, idx, lines, trace, usePosition);
      if pc.None? || pc.value !in statics {
        waveUnresolved := waveUnresolved + 1;
        return;
      }
      stats' := AddWaveRow(stats, pc.value, row, byPosition);
    }

    /** The body of `parse_wave_json`'s loop over files. */
    method ParseWaveFile(stats: map<nat, WaveStats>, rows: seq<Row>, statics: set<nat>, lines: map<int, nat>,
                         trace: Option<seq<Inst>>) returns (stats': map<nat, WaveStats>)
      requires Balanced()
      modifies this
      ensures Balanced()
      ensures waveFiles == old(waveFiles) + 1 && waveRows == old(waveRows) + |rows|
      ensures wavePositionMismatched
              == old(wavePositionMismatched) + if trace.Some? && !UsesPosition(rows, trace) then 1 else 0
      ensures var out := Outcomes(rows, statics, lines, trace);
              && waveUnresolved == old(waveUnresolved) + Count(out, AsUnresolved)
              && waveCodeResolved == old(waveCodeResolved) + Count(out, AsCode)
              && wavePositionResolved == old(wavePositionResolved) + Count(out, AsPosition)
              && Tallied(stats, stats', rows, out)
    {
      waveFiles := waveFiles + 1;
      waveRows := waveRows + |rows|;
      var usePosition := trace.Some? && |rows| == |trace.value|;
      if trace.Some? && !usePosition {
        wavePositionMismatched := wavePositionMismatched + 1;
      }
      stats' := stats;
      ghost var out := Outcomes(rows, statics, lines, trace);
      assert forall t :: Count(out[..0], t) == 0;
      hide Count, OutcomeOf, One, Hits, Sum, Share, Kept, Tallied, Outcomes;
      NothingTallied(stats, rows, out);
      for idx := 0 to |rows|
        invariant waveFiles == old(waveFiles) + 1 && waveRows == old(waveRows) + |rows|
        invariant wavePositionMismatched
                  == old(wavePositionMismatched) + if trace.Some? && !UsesPosition(rows, trace) then 1 else 0
        invariant waveResolved == waveCodeResolved + wavePositionResolved
        invariant waveUnresolved == old(waveUnresolved) + Count(out[..idx], AsUnresolved)
        invariant waveCodeResolved == old(waveCodeResolved) + Count(out[..idx], AsCode)
        invariant wavePositionResolved == old(wavePositionResolved) + Count(out[..idx], AsPosition)
        invariant Tallied(stats, stats', rows[..idx], out[..idx])
      {
        ghost var before := stats';
        stats' := ParseRow(stats', rows[idx], idx, statics, lines, trace, usePosition);
        OutcomeAt(rows, statics, lines, trace, idx);
        CountOne(out, idx, AsUnresolved);
        CountOne(out, idx, AsCode);
        CountOne(out, idx, AsPosition);
        TalliedNext(stats, before, stats', rows, out, idx);
      }
      assert out[..|rows|] == out && rows[..|rows|] == rows;
      CountSplits(out);
    }
  }

  /**
   What each row is resolved to: a line of the code map decides alone; otherwise, when the trace has as many
   instructions as the file has rows, the instruction at the row's own position.
   */
  lemma RowOutcome(rows: seq<Row>, statics: set<nat>, lines: map<int, nat>, trace: Option<seq<Inst>>, i: nat, pc: nat)
    requires i < |rows|
    ensures var o, mapped := Outcomes(rows, statics, lines, trace)[i], rows[i].line != 0 && rows[i].line in lines;
            && (o == ByCode(pc) <==> rows[i].cells >= 5 && mapped && lines[rows[i].line] == pc && pc in statics)
            && (o == ByPosition(pc) <==> && rows[i].cells >= 5 && !mapped && trace.Some? && |rows| == |trace.value|
                                         && trace.value[i].pc == pc && pc in statics)
  {}

  /** With a trace of matching length every full row the code map does not misplace is resolved. */
  lemma PositionResolves(rows: seq<Row>, ordered: seq<Inst>, trip: int, lines: map<int, nat>, i: nat)
    requires UsesPosition(rows, DynamicTrace(ordered, Some(trip))) && i < |rows|
    ensures var statics := set inst | inst in ordered :: inst.pc;
            Outcomes(rows, statics, lines, DynamicTrace(ordered, Some(trip)))[i].Unresolved?
            <==> || rows[i].cells < 5
                 || (rows[i].line != 0 && rows[i].line in lines && lines[rows[i].line] !in statics)
  {
    TraceFromListing(ordered, trip, i);
  }
}
