/**
 The index-expression corpus: merging extracted records into a corpus, and validating a corpus.
 An id is the record digest read as a number; digests have a fixed width, so the orders agree.
 */
module Corpus {
  import opened Prelude

  datatype Signature = Signature(kind: string, expression: string, assumptions: seq<string>, operandTypes: seq<string>,
                                 resultType: string)

  datatype Source = Source(group: string, name: string, sha: string)

  /** The other fields of an occurrence but the ordinal. */
  datatype Context = Context(func: string, block: int, loopDepth: nat, controlDepth: nat, consumers: seq<string>,
                             bindingIds: seq<string>, bindingBlocks: seq<int>, bindingLoopDepths: seq<nat>,
                             bindingControlDepths: seq<nat>)

  /** An occurrence without its ordinal. */
  datatype Place = Place(source: Source, context: Context)

  datatype Occurrence = Occurrence(place: Place, ordinal: nat)

  datatype Record = Record(id: nat, signature: Signature, occurrence: Occurrence)

  datatype Counted = Counted(place: Place, count: int)

  datatype Entry = Entry(id: nat, signature: Signature, occurrences: seq<Counted>)

  datatype Header = Header(schema: string, stage: string, pipeline: string)

  datatype Corpus = Corpus(header: Header, sourceCount: int, occurrenceCount: int, expressionCount: int,
                           groups: map<string, nat>, expressions: seq<Entry>)

  // ------------------------------------------------------------------ sorted ids

  predicate StrictlyIncreasing(s: seq<nat>) {
    forall i, j :: 0 <= i < j < |s| ==> s[i] < s[j]
  }

  function Elements<T>(s: seq<T>): set<T> { set x | x in s }

  function Max(s: set<nat>): (m: nat)
    requires s != {}
    ensures m in s && forall x :: x in s ==> x <= m
  {
    HasMax(s);
    var m :| m in s && forall x :: x in s ==> x <= m;
    m
  }

  lemma HasMax(s: set<nat>)
    requires s != {}
    ensures exists m :: m in s && forall x :: x in s ==> x <= m
  {
    var m := Greatest(s);
  }

  lemma {:induction false} Greatest(s: set<nat>) returns (m: nat)
    requires s != {}
    ensures m in s && forall x :: x in s ==> x <= m
  {
    m :| m in s;
    var rest := s - {m};
    assert forall x :: x in s ==> x in rest || x == m;
    if rest != {} {
      var most := Greatest(rest);
      m := if most < m then m else most;
    }
  }

  function Sorted(s: set<nat>): seq<nat> {
    if s == {} then [] else Sorted(s - {Max(s)}) + [Max(s)]
  }

  lemma {:induction false} SortedIs(s: set<nat>)
    ensures StrictlyIncreasing(Sorted(s)) && |Sorted(s)| == |s|
    ensures forall x :: x in Sorted(s) <==> x in s
  {
    if s != {} {
      var rest := Sorted(s - {Max(s)});
      SortedIs(s - {Max(s)});
      assert forall i :: 0 <= i < |rest| ==> rest[i] in rest;
      assert Sorted(s) == rest + [Max(s)];
    }
  }

  /** A list is its own sorted duplicate-free list if and only if it is strictly increasing. */
  lemma {:induction false} SortedIffIncreasing(a: seq<nat>)
    ensures a == Sorted(Elements(a)) <==> StrictlyIncreasing(a)
  {
    SortedIs(Elements(a));
    if StrictlyIncreasing(a) {
      SortedSame(a);
    }
  }

  lemma LastIsMax(rest: seq<nat>, last: nat)
    requires StrictlyIncreasing(rest + [last])
    ensures StrictlyIncreasing(rest)
    ensures Elements(rest + [last]) != {} && Max(Elements(rest + [last])) == last
    ensures Elements(rest + [last]) - {last} == Elements(rest)
  {
    var a := rest + [last];
    assert a[|rest|] == last && forall i :: 0 <= i < |rest| ==> a[i] == rest[i] && a[i] < a[|rest|];
    assert last in Elements(a);
    assert forall x :: x in Elements(a) <==> x in rest || x == last;
  }

  lemma {:induction false} SortedSame(a: seq<nat>)
    requires StrictlyIncreasing(a)
    ensures Sorted(Elements(a)) == a
  {
    if a != [] {
      hide Elements, Max;
      var rest, last := a[..|a| - 1], a[|a| - 1];
      assert a == rest + [last];
      LastIsMax(rest, last);
      SortedSame(rest);
    } else {
      assert Elements(a) == {};
    }
  }

  // ------------------------------------------------------------------ grouping and counting

  function Sources(records: seq<Record>): set<Source> {
    set r | r in records :: r.occurrence.place.source
  }

  /** How many sources each group has. */
  function GroupsOf(sources: set<Source>): map<string, nat> {
    map g | g in (set s | s in sources :: s.group) :: |InGroup(sources, g)|
  }

  function InGroup(sources: set<Source>, group: string): set<Source> { set s | s in sources && s.group == group }

  function Get(groups: map<string, nat>, g: string): nat { if g in groups then groups[g] else 0 }

  lemma InGroupNext(sources: set<Source>, s: Source, g: string)
    requires s !in sources
    ensures |InGroup(sources + {s}, g)| == |InGroup(sources, g)| + if g == s.group then 1 else 0
    ensures g !in (set x | x in sources :: x.group) ==> |InGroup(sources, g)| == 0
  {
    if g == s.group {
      assert InGroup(sources + {s}, g) == InGroup(sources, g) + {s};
    } else {
      assert InGroup(sources + {s}, g) == InGroup(sources, g);
    }
    if g !in (set x | x in sources :: x.group) {
      assert InGroup(sources, g) == {};
    }
  }

  lemma GroupsNext(sources: set<Source>, s: Source)
    requires s !in sources
    ensures GroupsOf(sources + {s}) == GroupsOf(sources)[s.group := Get(GroupsOf(sources), s.group) + 1]
  {
    hide InGroup;
    forall g
      ensures |InGroup(sources + {s}, g)| == |InGroup(sources, g)| + if g == s.group then 1 else 0
      ensures g !in (set x | x in sources :: x.group) ==> |InGroup(sources, g)| == 0
    {
      InGroupNext(sources, s, g);
    }
    assert (set x | x in sources + {s} :: x.group) == (set x | x in sources :: x.group) + {s.group};
  }

  function Places(occurrences: seq<Occurrence>): seq<Place> {
    seq(|occurrences|, i requires 0 <= i < |occurrences| => occurrences[i].place)
  }

  /** The occurrences of the records with an id, in order. */
  function OccurrencesOf(records: seq<Record>, id: nat): seq<Occurrence> {
    if records == [] then []
    else
      var last := records[|records| - 1];
      OccurrencesOf(records[..|records| - 1], id) + (if last.id == id then [last.occurrence] else [])
  }

  function Count(records: seq<Record>, id: nat, place: Place): nat {
    if records == [] then 0
    else
      var last := records[|records| - 1];
      Count(records[..|records| - 1], id, place) + (if last.id == id && last.occurrence.place == place then 1 else 0)
  }

  lemma {:induction false} CountIsMultiplicity(records: seq<Record>, id: nat, place: Place)
    ensures Count(records, id, place) == multiset(Places(OccurrencesOf(records, id)))[place]
  {
    if records != [] {
      var rest := records[..|records| - 1];
      var last := records[|records| - 1];
      CountIsMultiplicity(rest, id, place);
      if last.id == id {
        assert Places(OccurrencesOf(records, id)) == Places(OccurrencesOf(rest, id)) + [last.occurrence.place];
      } else {
        assert OccurrencesOf(records, id) == OccurrencesOf(rest, id);
      }
    }
  }

  lemma {:induction false} CountPositive(records: seq<Record>, id: nat, place: Place)
    ensures Count(records, id, place) > 0
            <==> exists i :: 0 <= i < |records| && records[i].id == id && records[i].occurrence.place == place
  {
    if records != [] {
      var rest := records[..|records| - 1];
      CountPositive(rest, id, place);
      assert forall i :: 0 <= i < |rest| ==> rest[i] == records[i];
      if i :| 0 <= i < |rest| && rest[i].id == id && rest[i].occurrence.place == place {
        assert records[i].id == id;
      }
    }
  }

  // ------------------------------------------------------------------ what a merge gives

  predicate DistinctPlaces(occurrences: seq<Counted>) {
    forall i, j :: 0 <= i < j < |occurrences| ==> occurrences[i].place != occurrences[j].place
  }

  /** Equal occurrences are merged with their number, whatever their ordinals. */
  ghost predicate CountsOf(occurrences: seq<Counted>, places: multiset<Place>) {
    && DistinctPlaces(occurrences)
    && (forall i :: 0 <= i < |occurrences| ==> 0 < occurrences[i].count == places[occurrences[i].place])
    && forall p :: p in places ==> exists i :: 0 <= i < |occurrences| && occurrences[i].place == p
  }

  /** The position of the first record with an id. */
  ghost predicate First(records: seq<Record>, id: nat, i: nat)
    ensures First(records, id, i) ==> i < |records|
  {
    i < |records| && records[i].id == id && forall j :: 0 <= j < i ==> records[j].id != id
  }

  ghost predicate EntryOf(records: seq<Record>, e: Entry) {
    && (exists i: nat :: First(records, e.id, i) && records[i].signature == e.signature)
    && CountsOf(e.occurrences, multiset(Places(OccurrencesOf(records, e.id))))
  }

  function Ids(entries: seq<Entry>): seq<nat> {
    seq(|entries|, i requires 0 <= i < |entries| => entries[i].id)
  }

  function RecordIds(records: seq<Record>): set<nat> { set r | r in records :: r.id }

  ghost predicate MergedFrom(records: seq<Record>, sourceCount: nat, header: Header, c: Corpus) {
    && c.header == header
    && Ids(c.expressions) == Sorted(RecordIds(records))
    && (forall i :: 0 <= i < |c.expressions| ==> EntryOf(records, c.expressions[i]))
    && c.sourceCount == sourceCount == |Sources(records)|
    && c.occurrenceCount == |records|
    && c.expressionCount == |c.expressions|
    && c.groups == GroupsOf(Sources(records))
  }

  // ------------------------------------------------------------------ merging

  datatype Draft = Draft(signature: Signature, occurrences: seq<Occurrence>)

  ghost predicate DraftsOf(records: seq<Record>, drafts: map<nat, Draft>) {
    && drafts.Keys == RecordIds(records)
    && forall id :: id in drafts ==>
         && drafts[id].occurrences == OccurrencesOf(records, id)
         && exists i: nat :: First(records, id, i) && records[i].signature == drafts[id].signature
  }

  lemma {:induction false} NoOccurrences(records: seq<Record>, id: nat)
    requires id !in RecordIds(records)
    ensures OccurrencesOf(records, id) == []
  {
    if records != [] {
      assert records[|records| - 1] in records;
      assert forall r :: r in records[..|records| - 1] ==> r in records;
      NoOccurrences(records[..|records| - 1], id);
    }
  }

  lemma OccurrencesNext(records: seq<Record>, r: Record, id: nat)
    ensures OccurrencesOf(records + [r], id) == OccurrencesOf(records, id) + if r.id == id then [r.occurrence] else []
  {
    assert (records + [r])[..|records|] == records;
  }

  lemma DraftsNext(records: seq<Record>, r: Record, drafts: map<nat, Draft>, next: map<nat, Draft>)
    requires DraftsOf(records, drafts)
    requires var draft := if r.id in drafts then drafts[r.id] else Draft(r.signature, []);
             next == drafts[r.id := Draft(draft.signature, draft.occurrences + [r.occurrence])]
    ensures DraftsOf(records + [r], next)
  {
    hide OccurrencesOf, First;
    var all := records + [r];
    assert RecordIds(all) == RecordIds(records) + {r.id};
    if r.id !in drafts {
      NoOccurrences(records, r.id);
      FirstNew(records, r);
    }
    forall id | id in next
      ensures next[id].occurrences == OccurrencesOf(all, id)
    {
      OccurrencesNext(records, r, id);
    }
    forall id | id in next
      ensures exists i: nat :: First(all, id, i) && all[i].signature == next[id].signature
    {
      if id in drafts {
        FirstKept(records, r, id, drafts[id].signature);
      }
    }
  }

  lemma FirstNew(records: seq<Record>, r: Record)
    requires r.id !in RecordIds(records)
    ensures First(records + [r], r.id, |records|)
  {
    assert forall j :: 0 <= j < |records| ==> records[j] in records;
  }

  lemma FirstKept(records: seq<Record>, r: Record, id: nat, signature: Signature)
    requires exists i: nat :: First(records, id, i) && records[i].signature == signature
    ensures exists i: nat :: First(records + [r], id, i) && (records + [r])[i].signature == signature
  {
    var i: nat :| First(records, id, i) && records[i].signature == signature;
    assert First(records + [r], id, i);
  }

  lemma NoDrafts()
    ensures DraftsOf([], map[])
  {}

  /** The first loop of `_merge_records`. */
  method CollectDrafts(records: seq<Record>) returns (drafts: map<nat, Draft>)
    ensures DraftsOf(records, drafts)
  {
    NoDrafts();
    hide DraftsOf;
    drafts := map[];
    for i := 0 to |records|
      invariant DraftsOf(records[..i], drafts)
    {
      var r := records[i];
      var draft := if r.id in drafts then drafts[r.id] else Draft(r.signature, []);
      var next := drafts[r.id := Draft(draft.signature, draft.occurrences + [r.occurrence])];
      assert records[..i + 1] == records[..i] + [r];
      DraftsNext(records[..i], r, drafts, next);
      drafts := next;
    }
    assert records[..|records|] == records;
  }

  /** `slots` is where each place seen so far sits in the list. */
  ghost predicate Slotted(counted: seq<Counted>, slots: map<Place, nat>, seen: multiset<Place>) {
    && (forall p :: p in slots <==> p in seen)
    && (forall p :: p in slots ==> slots[p] < |counted| && counted[slots[p]].place == p)
    && (forall i :: 0 <= i < |counted| ==> counted[i].place in slots && slots[counted[i].place] == i)
    && forall i :: 0 <= i < |counted| ==> 0 < counted[i].count == seen[counted[i].place]
  }

  lemma SlottedCounts(counted: seq<Counted>, slots: map<Place, nat>, seen: multiset<Place>)
    requires Slotted(counted, slots, seen)
    ensures CountsOf(counted, seen)
  {
    forall p | p in seen
      ensures exists i :: 0 <= i < |counted| && counted[i].place == p
    {
      assert counted[slots[p]].place == p;
    }
  }

  lemma SlottedNew(counted: seq<Counted>, slots: map<Place, nat>, seen: multiset<Place>, p: Place)
    requires Slotted(counted, slots, seen) && p !in slots
    ensures Slotted(counted + [Counted(p, 1)], slots[p := |counted|], seen + multiset{p})
  {}

  lemma SlottedAgain(counted: seq<Counted>, slots: map<Place, nat>, seen: multiset<Place>, p: Place)
    requires Slotted(counted, slots, seen) && p in slots
    ensures Slotted(counted[slots[p] := Counted(p, counted[slots[p]].count + 1)], slots, seen + multiset{p})
  {}

  /** The loop over one entry's occurrences. */
  method Aggregate(occurrences: seq<Occurrence>) returns (counted: seq<Counted>)
    ensures CountsOf(counted, multiset(Places(occurrences)))
  {
    counted := [];
    var slots: map<Place, nat> := map[];
    for n := 0 to |occurrences|
      invariant Slotted(counted, slots, multiset(Places(occurrences)[..n]))
    {
      var p := occurrences[n].place;
      ghost var all := Places(occurrences);
      assert all[..n + 1] == all[..n] + [p];
      if p in slots {
        SlottedAgain(counted, slots, multiset(all[..n]), p);
        counted := counted[slots[p] := Counted(p, counted[slots[p]].count + 1)];
      } else {
        SlottedNew(counted, slots, multiset(all[..n]), p);
        slots := slots[p := |counted|];
        counted := counted + [Counted(p, 1)];
      }
    }
    assert Places(occurrences)[..|occurrences|] == Places(occurrences);
    SlottedCounts(counted, slots, multiset(Places(occurrences)));
  }

  /** The last loop of `_merge_records`: the sources and their number in each group. */
  method CountSources(records: seq<Record>) returns (sources: set<Source>, groups: map<string, nat>)
    ensures sources == Sources(records) && groups == GroupsOf(sources)
  {
    sources, groups := {}, map[];
    for i := 0 to |records|
      invariant sources == Sources(records[..i]) && groups == GroupsOf(sources)
    {
      var s := records[i].occurrence.place.source;
      assert records[..i + 1] == records[..i] + [records[i]];
      assert Sources(records[..i + 1]) == Sources(records[..i]) + {s};
      if s in sources {
        assert sources + {s} == sources;
      } else {
        GroupsNext(sources, s);
        groups := groups[s.group := Get(groups, s.group) + 1];
        sources := sources + {s};
      }
    }
    assert records[..|records|] == records;
  }

  /** The entries in id order, each with its occurrences aggregated. */
  method BuildEntries(ghost records: seq<Record>, drafts: map<nat, Draft>) returns (expressions: seq<Entry>)
    requires DraftsOf(records, drafts)
    ensures Ids(expressions) == Sorted(RecordIds(records))
    ensures forall i :: 0 <= i < |expressions| ==> EntryOf(records, expressions[i])
  {
    var ids := Sorted(drafts.Keys);
    SortedIs(drafts.Keys);
    expressions := [];
    hide First, CountsOf, StrictlyIncreasing, OccurrencesOf, Sorted, RecordIds, Places;
    for i := 0 to |ids|
      invariant |expressions| == i && forall j :: 0 <= j < i ==> expressions[j].id == ids[j]
      invariant forall j :: 0 <= j < i ==> EntryOf(records, expressions[j])
    {
      assert ids[i] in ids;
      var draft := drafts[ids[i]];
      var occurrences := Aggregate(draft.occurrences);
      assert EntryOf(records, Entry(ids[i], draft.signature, occurrences));
      expressions := expressions + [Entry(ids[i], draft.signature, occurrences)];
    }
    assert Ids(expressions) == ids;
  }

  /** `_merge_records`; `None` is the error about the number of distinct sources. */
  method MergeRecords(records: seq<Record>, sourceCount: nat, header: Header) returns (r: Option<Corpus>)
    ensures r.Some? <==> |Sources(records)| == sourceCount
    ensures r.Some? ==> MergedFrom(records, sourceCount, header, r.value)
  {
    hide Ids, RecordIds, EntryOf, Sources, GroupsOf, DraftsOf;
    var drafts := CollectDrafts(records);
    var expressions := BuildEntries(records, drafts);
    var sources, groups := CountSources(records);
    if |sources| != sourceCount {
      return None;
    }
    r := Some(Corpus(header, sourceCount, |records|, |expressions|, groups, expressions));
  }

  // ------------------------------------------------------------------ validating

  function TotalOf(occurrences: seq<Counted>): int {
    if occurrences == [] then 0 else TotalOf(occurrences[..|occurrences| - 1]) + occurrences[|occurrences| - 1].count
  }

  function Total(entries: seq<Entry>): int {
    if entries == [] then 0 else Total(entries[..|entries| - 1]) + TotalOf(entries[|entries| - 1].occurrences)
  }

  function EntrySources(occurrences: seq<Counted>): set<Source> { set o | o in occurrences :: o.place.source }

  function AllSources(entries: seq<Entry>): set<Source> {
    set e, o | e in entries && o in e.occurrences :: o.place.source
  }

  predicate ValidEntry(e: Entry, digest: Signature -> nat) {
    e.id == digest(e.signature) && e.occurrences != [] && forall o :: o in e.occurrences ==> o.count > 0
  }

  ghost predicate ValidCorpus(c: Corpus, header: Header, digest: Signature -> nat, required: seq<string>) {
    && c.header == header && c.expressions != []
    && (forall e :: e in c.expressions ==> ValidEntry(e, digest))
    && StrictlyIncreasing(Ids(c.expressions))
    && c.expressionCount == |c.expressions| && c.occurrenceCount == Total(c.expressions)
    && c.sourceCount == |AllSources(c.expressions)|
    && c.groups == GroupsOf(AllSources(c.expressions))
    && forall g :: g in required ==> g in c.groups
  }

  lemma EntryNext(occurrences: seq<Counted>, o: Counted)
    ensures TotalOf(occurrences + [o]) == TotalOf(occurrences) + o.count
    ensures EntrySources(occurrences + [o]) == EntrySources(occurrences) + {o.place.source}
  {
    assert (occurrences + [o])[..|occurrences|] == occurrences;
  }

  /** `_validate_entry`; `None` is any of its errors. */
  method ValidateEntry(e: Entry, digest: Signature -> nat) returns (r: Option<(nat, int, set<Source>)>)
    ensures r == if ValidEntry(e, digest)
                 then Some((e.id, TotalOf(e.occurrences), EntrySources(e.occurrences))) else None
  {
    var expected := digest(e.signature);
    if e.id != expected || e.occurrences == [] {
      return None;
    }
    var total, sources := 0, {};
    assert EntrySources([]) == {};
    hide TotalOf, EntrySources;
    for i := 0 to |e.occurrences|
      invariant total == TotalOf(e.occurrences[..i]) && sources == EntrySources(e.occurrences[..i])
      invariant forall o :: o in e.occurrences[..i] ==> o.count > 0
    {
      var o := e.occurrences[i];
      if o.count <= 0 {
        assert o in e.occurrences;
        return None;
      }
      assert e.occurrences[..i + 1] == e.occurrences[..i] + [o];
      EntryNext(e.occurrences[..i], o);
      total := total + o.count;
      sources := sources + {o.place.source};
    }
    assert e.occurrences[..|e.occurrences|] == e.occurrences;
    r := Some((expected, total, sources));
  }

  /** `_validate_expressions`; `None` is any of its errors. */
  method ValidateExpressions(entries: seq<Entry>, digest: Signature -> nat) returns (r: Option<(int, set<Source>)>)
    ensures r == if (forall e :: e in entries ==> ValidEntry(e, digest)) && StrictlyIncreasing(Ids(entries))
                 then Some((Total(entries), AllSources(entries))) else None
  {
    var ids: seq<nat>, total, sources := [], 0, {};
    for i := 0 to |entries|
      invariant ids == Ids(entries[..i]) && total == Total(entries[..i]) && sources == AllSources(entries[..i])
      invariant forall e :: e in entries[..i] ==> ValidEntry(e, digest)
    {
      var e := entries[i];
      var checked := ValidateEntry(e, digest);
      if checked.None? {
        assert e in entries;
        return None;
      }
      assert entries[..i + 1] == entries[..i] + [e];
      assert entries[..i + 1][..i] == entries[..i];
      assert AllSources(entries[..i + 1]) == AllSources(entries[..i]) + EntrySources(e.occurrences);
      ids := ids + [checked.value.0];
      total := total + checked.value.1;
      sources := sources + checked.value.2;
    }
    assert entries[..|entries|] == entries;
    SortedIffIncreasing(ids);
    if ids != Sorted(Elements(ids)) {
      return None;
    }
    r := Some((total, sources));
  }

  /** The loop of `_validate_groups`, over the sources in any order. */
  method CountGroups(sources: set<Source>) returns (groups: map<string, nat>)
    ensures groups == GroupsOf(sources)
  {
    groups := map[];
    var left := sources;
    assert sources - left == {};
    while left != {}
      invariant left <= sources && groups == GroupsOf(sources - left)
      decreases |left|
    {
      var s :| s in left;
      GroupsNext(sources - left, s);
      assert sources - (left - {s}) == sources - left + {s};
      groups := groups[s.group := Get(groups, s.group) + 1];
      left := left - {s};
    }
    assert sources - left == sources;
  }

  /** `validate` after reading: all four checks. */
  method Validate(c: Corpus, header: Header, digest: Signature -> nat, required: seq<string>) returns (ok: bool)
    ensures ok <==> ValidCorpus(c, header, digest, required)
  {
    if c.header != header || c.expressions == [] {
      return false;
    }
    var checked := ValidateExpressions(c.expressions, digest);
    if checked.None? {
      return false;
    }
    var (total, sources) := checked.value;
    if |c.expressions| != c.expressionCount || total != c.occurrenceCount || |sources| != c.sourceCount {
      return false;
    }
    var groups := CountGroups(sources);
    if groups != c.groups {
      return false;
    }
    ok := forall g | g in required :: g in groups;
  }

  // ------------------------------------------------------------------ a merged corpus is valid

  /** What the counts of the merged entries would be for other records. */
  lemma {:induction false} TotalReplaced(entries: seq<Entry>, i: nat, e: Entry)
    requires i < |entries|
    ensures Total(entries[i := e]) == Total(entries) - TotalOf(entries[i].occurrences) + TotalOf(e.occurrences)
  {
    var n := |entries| - 1;
    if i < n {
      assert entries[i := e][..n] == entries[..n][i := e];
      TotalReplaced(entries[..n], i, e);
    } else {
      assert entries[i := e][..n] == entries[..n];
    }
  }

  /**
   A valid corpus is refused once its header or totals are changed in any way; once an entry is replaced by one whose
   id is not its signature's digest, which occurs nowhere or a nonpositive number of times, or which occurs another
   number of times in all; once one is dropped; and once two change places.
   */
  lemma TamperingRefused(c: Corpus, header: Header, digest: Signature -> nat, required: seq<string>, other: Corpus,
                         i: nat, j: nat, e: Entry)
    requires ValidCorpus(c, header, digest, required) && i < |c.expressions| && j < |c.expressions|
    ensures other.expressions == c.expressions && other != c ==> !ValidCorpus(other, header, digest, required)
    ensures e.id != digest(e.signature) || e.occurrences == [] || (exists o :: o in e.occurrences && o.count <= 0)
            || TotalOf(e.occurrences) != TotalOf(c.expressions[i].occurrences)
            ==> !ValidCorpus(c.(expressions := c.expressions[i := e]), header, digest, required)
    ensures !ValidCorpus(c.(expressions := c.expressions[..i] + c.expressions[i + 1..]), header, digest, required)
    ensures i != j ==>
              !ValidCorpus(c.(expressions := c.expressions[i := c.expressions[j]][j := c.expressions[i]]), header,
                           digest, required)
  {
    hide AllSources, GroupsOf, Total, TotalOf;
    TotalReplaced(c.expressions, i, e);
    var replaced := c.expressions[i := e];
    assert replaced[i] == e && e in replaced;
    if ValidCorpus(c.(expressions := replaced), header, digest, required) {
      assert ValidEntry(e, digest);
    }
    if i != j {
      SwappedFalls(c.expressions, i, j);
    }
    hide StrictlyIncreasing, Ids;
  }

  lemma SwappedFalls(entries: seq<Entry>, i: nat, j: nat)
    requires i < |entries| && j < |entries| && i != j && StrictlyIncreasing(Ids(entries))
    ensures !StrictlyIncreasing(Ids(entries[i := entries[j]][j := entries[i]]))
  {
    var swapped := Ids(entries[i := entries[j]][j := entries[i]]);
    assert swapped[i] == Ids(entries)[j] && swapped[j] == Ids(entries)[i];
    if i < j {
      assert Ids(entries)[i] < Ids(entries)[j];
    } else {
      assert Ids(entries)[j] < Ids(entries)[i];
    }
  }

  /** A required group without a source is refused. */
  lemma GroupsRequired(c: Corpus, header: Header, digest: Signature -> nat, required: seq<string>, group: string)
    requires ValidCorpus(c, header, digest, required) && group in required
    ensures exists s :: s in AllSources(c.expressions) && s.group == group
  {
    hide AllSources;
  }

  function CountAll(records: seq<Record>, id: nat, occurrences: seq<Counted>): nat {
    if occurrences == [] then 0
    else
      CountAll(records, id, occurrences[..|occurrences| - 1])
      + Count(records, id, occurrences[|occurrences| - 1].place)
  }

  function Weight(records: seq<Record>, entries: seq<Entry>): nat {
    if entries == [] then 0
    else
      var last := entries[|entries| - 1];
      Weight(records, entries[..|entries| - 1]) + CountAll(records, last.id, last.occurrences)
  }

  lemma {:induction false} NoRecordsNoCount(id: nat, occurrences: seq<Counted>)
    ensures CountAll([], id, occurrences) == 0
  {
    if occurrences != [] {
      NoRecordsNoCount(id, occurrences[..|occurrences| - 1]);
    }
  }

  lemma {:induction false} NoRecordsNoWeight(entries: seq<Entry>)
    ensures Weight([], entries) == 0
  {
    if entries != [] {
      var last := entries[|entries| - 1];
      NoRecordsNoWeight(entries[..|entries| - 1]);
      NoRecordsNoCount(last.id, last.occurrences);
    }
  }

  predicate Listed(occurrences: seq<Counted>, place: Place) {
    exists i :: 0 <= i < |occurrences| && occurrences[i].place == place
  }

  /** One more record counts once in the list that holds its place, and nowhere else. */
  lemma {:induction false} CountAllNext(records: seq<Record>, r: Record, id: nat, occurrences: seq<Counted>)
    requires DistinctPlaces(occurrences)
    ensures CountAll(records + [r], id, occurrences) == CountAll(records, id, occurrences)
            + if r.id == id && Listed(occurrences, r.occurrence.place) then 1 else 0
  {
    assert (records + [r])[..|records|] == records;
    if occurrences != [] {
      var rest := occurrences[..|occurrences| - 1];
      CountAllNext(records, r, id, rest);
      assert occurrences == rest + [occurrences[|occurrences| - 1]];
      assert Listed(occurrences, r.occurrence.place)
             <==> Listed(rest, r.occurrence.place) || occurrences[|occurrences| - 1].place == r.occurrence.place;
    }
  }

  ghost predicate Holds(entries: seq<Entry>, r: Record) {
    exists i :: 0 <= i < |entries| && entries[i].id == r.id && Listed(entries[i].occurrences, r.occurrence.place)
  }

  lemma HoldsLast(rest: seq<Entry>, last: Entry, r: Record)
    requires StrictlyIncreasing(Ids(rest + [last]))
    ensures Holds(rest + [last], r)
            <==> Holds(rest, r) || (last.id == r.id && Listed(last.occurrences, r.occurrence.place))
    ensures last.id == r.id ==> !Holds(rest, r)
  {
    var entries := rest + [last];
    assert forall i :: 0 <= i < |rest| ==> entries[i] == rest[i] && Ids(entries)[i] < Ids(entries)[|rest|];
    assert entries[|rest|] == last;
    if Holds(rest, r) {
      var i :| 0 <= i < |rest| && rest[i].id == r.id && Listed(rest[i].occurrences, r.occurrence.place);
      assert entries[i] == rest[i];
    }
    if last.id == r.id && Listed(last.occurrences, r.occurrence.place) {
      assert entries[|rest|].id == r.id;
    }
  }

  lemma {:induction false} WeightNext(records: seq<Record>, r: Record, entries: seq<Entry>)
    requires StrictlyIncreasing(Ids(entries)) && forall e :: e in entries ==> DistinctPlaces(e.occurrences)
    ensures Weight(records + [r], entries) == Weight(records, entries) + if Holds(entries, r) then 1 else 0
  {
    if entries != [] {
      var last := entries[|entries| - 1];
      var rest := entries[..|entries| - 1];
      assert Ids(rest) == Ids(entries)[..|rest|];
      WeightNext(records, r, rest);
      CountAllNext(records, r, last.id, last.occurrences);
      assert entries == rest + [last];
      HoldsLast(rest, last, r);
    }
  }

  lemma {:induction false} WeightIsLength(records: seq<Record>, entries: seq<Entry>)
    requires StrictlyIncreasing(Ids(entries)) && forall e :: e in entries ==> DistinctPlaces(e.occurrences)
    requires forall r :: r in records ==> Holds(entries, r)
    ensures Weight(records, entries) == |records|
  {
    if records == [] {
      NoRecordsNoWeight(entries);
    } else {
      var rest := records[..|records| - 1];
      assert records == rest + [records[|records| - 1]];
      WeightIsLength(rest, entries);
      WeightNext(rest, records[|records| - 1], entries);
    }
  }

  lemma {:induction false} TotalOfCounts(records: seq<Record>, id: nat, occurrences: seq<Counted>)
    requires forall i :: 0 <= i < |occurrences| ==> occurrences[i].count == Count(records, id, occurrences[i].place)
    ensures TotalOf(occurrences) == CountAll(records, id, occurrences)
  {
    if occurrences != [] {
      TotalOfCounts(records, id, occurrences[..|occurrences| - 1]);
    }
  }

  lemma {:induction false} TotalIsWeight(records: seq<Record>, entries: seq<Entry>)
    requires forall i :: 0 <= i < |entries| ==> EntryOf(records, entries[i])
    ensures Total(entries) == Weight(records, entries)
  {
    if entries != [] {
      var last := entries[|entries| - 1];
      TotalIsWeight(records, entries[..|entries| - 1]);
      forall i | 0 <= i < |last.occurrences|
        ensures last.occurrences[i].count == Count(records, last.id, last.occurrences[i].place)
      {
        CountIsMultiplicity(records, last.id, last.occurrences[i].place);
      }
      TotalOfCounts(records, last.id, last.occurrences);
    }
  }

  /** Every record is counted in exactly the entry with its id. */
  lemma RecordHeld(records: seq<Record>, sourceCount: nat, header: Header, c: Corpus, r: Record)
    requires MergedFrom(records, sourceCount, header, c) && r in records
    ensures Holds(c.expressions, r)
  {
    SortedIs(RecordIds(records));
    assert r.id in Ids(c.expressions);
    var i :| 0 <= i < |c.expressions| && c.expressions[i].id == r.id;
    CountPositive(records, r.id, r.occurrence.place);
    CountIsMultiplicity(records, r.id, r.occurrence.place);
    assert EntryOf(records, c.expressions[i]);
  }

  /** The summed counts are the number of records, although equal occurrences were merged. */
  lemma OccurrencesConserved(records: seq<Record>, sourceCount: nat, header: Header, c: Corpus)
    requires MergedFrom(records, sourceCount, header, c)
    ensures Total(c.expressions) == |records|
  {
    SortedIs(RecordIds(records));
    assert forall e :: e in c.expressions ==> DistinctPlaces(e.occurrences) by {
      assert forall e :: e in c.expressions ==> EntryOf(records, e);
    }
    hide EntryOf, Holds, DistinctPlaces, StrictlyIncreasing, Weight, Total;
    TotalIsWeight(records, c.expressions);
    forall r | r in records
      ensures Holds(c.expressions, r)
    {
      RecordHeld(records, sourceCount, header, c, r);
    }
    WeightIsLength(records, c.expressions);
  }

  lemma EntrySourcesKnown(records: seq<Record>, e: Entry, o: Counted)
    requires EntryOf(records, e) && o in e.occurrences
    ensures o.place.source in Sources(records)
  {
    CountIsMultiplicity(records, e.id, o.place);
    CountPositive(records, e.id, o.place);
  }

  lemma HeldSourceListed(entries: seq<Entry>, r: Record)
    requires Holds(entries, r)
    ensures r.occurrence.place.source in AllSources(entries)
  {
    var i :| 0 <= i < |entries| && entries[i].id == r.id && Listed(entries[i].occurrences, r.occurrence.place);
    var j :| 0 <= j < |entries[i].occurrences| && entries[i].occurrences[j].place == r.occurrence.place;
    assert entries[i] in entries && entries[i].occurrences[j] in entries[i].occurrences;
  }

  lemma SourcesKept(records: seq<Record>, sourceCount: nat, header: Header, c: Corpus)
    requires MergedFrom(records, sourceCount, header, c)
    ensures AllSources(c.expressions) == Sources(records)
  {
    hide EntryOf, Holds;
    forall r | r in records
      ensures r.occurrence.place.source in AllSources(c.expressions)
    {
      RecordHeld(records, sourceCount, header, c, r);
      HeldSourceListed(c.expressions, r);
    }
    forall e, o | e in c.expressions && o in e.occurrences
      ensures o.place.source in Sources(records)
    {
      EntrySourcesKnown(records, e, o);
    }
  }

  /**
   Every check accepts what a merge produced, and rejects it only for having no records or lacking a required
   group. The digest need not be injective.
   */
  lemma MergedIsValid(records: seq<Record>, sourceCount: nat, header: Header, c: Corpus, digest: Signature -> nat,
                      required: seq<string>)
    requires MergedFrom(records, sourceCount, header, c)
    requires forall r :: r in records ==> r.id == digest(r.signature)
    ensures ValidCorpus(c, header, digest, required)
            <==> records != [] && forall g :: g in required ==> exists s :: s in Sources(records) && s.group == g
  {
    SortedIs(RecordIds(records));
    OccurrencesConserved(records, sourceCount, header, c);
    SourcesKept(records, sourceCount, header, c);
    assert c.expressions == [] <==> records == [] by {
      assert |c.expressions| == |RecordIds(records)|;
      if records != [] {
        assert records[0].id in RecordIds(records);
      }
    }
    forall e | e in c.expressions
      ensures ValidEntry(e, digest)
    {
      assert EntryOf(records, e);
      var i: nat :| First(records, e.id, i) && records[i].signature == e.signature;
      assert records[i] in records;
      RecordHeld(records, sourceCount, header, c, records[i]);
      FirstIsListed(records, e, i);
    }
  }

  /**
   What `collect` writes is valid: it asks for at least one source, so a merge that succeeds has records, and only
   a missing required group can make a check reject it.
   */
  lemma CollectedIsValid(records: seq<Record>, sourceCount: nat, header: Header, c: Corpus, digest: Signature -> nat,
                         required: seq<string>)
    requires sourceCount >= 1 && MergedFrom(records, sourceCount, header, c)
    requires forall r :: r in records ==> r.id == digest(r.signature)
    ensures ValidCorpus(c, header, digest, required)
            <==> forall g :: g in required ==> exists s :: s in Sources(records) && s.group == g
    ensures ValidCorpus(c, header, digest, [])
  {
    MergedIsValid(records, sourceCount, header, c, digest, required);
    MergedIsValid(records, sourceCount, header, c, digest, []);
    assert records == [] ==> Sources(records) == {};
    hide ValidCorpus;
  }

  lemma FirstIsListed(records: seq<Record>, e: Entry, i: nat)
    requires EntryOf(records, e) && i < |records| && records[i].id == e.id
    ensures e.occurrences != []
  {
    CountPositive(records, e.id, records[i].occurrence.place);
    CountIsMultiplicity(records, e.id, records[i].occurrence.place);
    assert records[i] in records;
  }
}
