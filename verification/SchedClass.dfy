/**
 Resolving a variant scheduling class: the bounded loop and its exact verdict. For a fixed opcode and
 processor the resolution of a class is a function of the class.
 */
module SchedClass {

  datatype Verdict = Resolved | Cyclic | Unresolvable | Missing

  /** The scheduling model: how many classes, which are variants, and what each resolves to. */
  datatype Model = Model(classes: nat, variant: nat -> bool, resolve: nat -> nat)
  {
    /** Classes are table indices. */
    ghost predicate Valid() { forall c :: resolve(c) < classes }

    /** The class is a variant that resolves to another class. */
    predicate Steps(c: nat) { c != 0 && variant(c) && resolve(c) != 0 && resolve(c) != c }

    /** The class after `k` resolutions. */
    function After(start: nat, k: nat): nat { if k == 0 then start else resolve(After(start, k - 1)) }

    /** Resolution from `start` gets to step `k` and no further. */
    ghost predicate StopsAt(start: nat, k: nat) {
      (forall j :: 0 <= j < k ==> Steps(After(start, j))) && !Steps(After(start, k))
    }

    ghost predicate NeverStops(start: nat) { forall k: nat :: Steps(After(start, k)) }

    /** Resolution stops at a concrete class. */
    ghost predicate EndsConcrete(start: nat, k: nat) {
      StopsAt(start, k) && After(start, k) != 0 && !variant(After(start, k))
    }

    /** Resolution stops at a variant that resolves to nothing or to itself. */
    ghost predicate EndsVariant(start: nat, k: nat) {
      && StopsAt(start, k) && After(start, k) != 0 && variant(After(start, k))
      && (After(start, k + 1) == 0 || After(start, k + 1) == After(start, k))
    }
  }

  lemma {:induction false} Pigeonhole(s: seq<nat>, n: nat) returns (i: nat, j: nat)
    requires |s| > n && forall k :: 0 <= k < |s| ==> s[k] < n
    ensures i < j < |s| && s[i] == s[j]
    decreases n
  {
    if k :| 0 <= k < |s| - 1 && s[k] == s[|s| - 1] {
      return k, |s| - 1;
    }
    // The last value is free: rename the largest value to it in the rest.
    var last := s[|s| - 1];
    var rest := seq(|s| - 1, k requires 0 <= k < |s| - 1 => if s[k] == n - 1 then last else s[k]);
    assert forall k :: 0 <= k < |rest| ==> rest[k] < n - 1;
    i, j := Pigeonhole(rest, n - 1);
  }

  lemma {:induction false} AfterAfter(m: Model, start: nat, i: nat, k: nat)
    ensures m.After(start, i + k) == m.After(m.After(start, i), k)
  {
    if k > 0 {
      AfterAfter(m, start, i, k - 1);
    }
  }

  /** After a repetition every later class occurs between the two. */
  lemma {:induction false} Loops(m: Model, start: nat, i: nat, j: nat, k: nat) returns (at: nat)
    requires i < j && m.After(start, i) == m.After(start, j)
    ensures at < j && m.After(start, at) == m.After(start, k)
    decreases k
  {
    if k < j {
      at := k;
    } else {
      AfterAfter(m, start, i, k - j);
      AfterAfter(m, start, j, k - j);
      at := Loops(m, start, i, j, i + (k - j));
    }
  }

  /** More classes than the table has: a class is met again, so resolution never stops. */
  lemma TooManySteps(m: Model, start: nat)
    requires m.Valid() && start < m.classes
    requires forall j :: 0 <= j < m.classes ==> m.Steps(m.After(start, j))
    ensures m.NeverStops(start)
    ensures exists i: nat, j: nat :: i < j && m.After(start, i) == m.After(start, j)
  {
    var met := seq(m.classes + 1, k requires 0 <= k <= m.classes => m.After(start, k));
    var i, j := Pigeonhole(met, m.classes);
    assert met[i] == m.After(start, i) && met[j] == m.After(start, j);
    forall k: nat
      ensures m.Steps(m.After(start, k))
    {
      var at := Loops(m, start, i, j, k);
    }
  }

  /** Resolution stops in one place at most. */
  lemma StopUnique(m: Model, start: nat, i: nat, j: nat)
    requires m.StopsAt(start, i) && m.StopsAt(start, j)
    ensures i == j
  {}

  lemma NowhereStops(m: Model, start: nat)
    requires m.NeverStops(start)
    ensures forall k: nat :: !m.StopsAt(start, k)
  {
    forall k: nat
      ensures !m.StopsAt(start, k)
    {
      assert m.Steps(m.After(start, k));
    }
  }

  lemma OnlyStop(m: Model, start: nat, k: nat)
    requires m.StopsAt(start, k)
    ensures forall j: nat :: m.StopsAt(start, j) ==> j == k
    ensures !m.NeverStops(start)
  {
    forall j: nat | m.StopsAt(start, j)
      ensures j == k
    {
      StopUnique(m, start, j, k);
    }
    assert !m.Steps(m.After(start, k));
  }

  /**
   `resolveSchedClass`: its four answers, each if and only if, with the class it stopped at in the out parameter.
   Class 0 is never reached on the way: a class that resolves to it is unresolvable.
   */
  method ResolveSchedClass(m: Model, start: nat) returns (verdict: Verdict, schedClass: nat)
    requires m.Valid() && start < m.classes
    ensures verdict == Cyclic <==> m.NeverStops(start)
    ensures verdict == Missing <==> start == 0
    ensures verdict == Resolved <==> exists k: nat :: m.EndsConcrete(start, k)
    ensures verdict == Unresolvable <==> exists k: nat :: m.EndsVariant(start, k)
    ensures forall k: nat :: m.StopsAt(start, k) ==> schedClass == m.After(start, k)
  {
    schedClass := start;
    var count := 0;
    while schedClass != 0 && m.variant(schedClass)
      invariant count <= m.classes && schedClass == m.After(start, count) && (schedClass == 0 ==> count == 0)
      invariant forall j :: 0 <= j < count ==> m.Steps(m.After(start, j))
      decreases m.classes - count
    {
      if count + 1 > m.classes {
        TooManySteps(m, start);
        NowhereStops(m, start);
        return Cyclic, schedClass;
      }
      var resolved := m.resolve(schedClass);
      if resolved == 0 || resolved == schedClass {
        assert m.StopsAt(start, count);
        OnlyStop(m, start, count);
        assert m.EndsVariant(start, count);
        return Unresolvable, schedClass;
      }
      count, schedClass := count + 1, resolved;
    }
    assert m.StopsAt(start, count);
    OnlyStop(m, start, count);
    if schedClass == 0 {
      return Missing, schedClass;
    }
    assert m.EndsConcrete(start, count);
    return Resolved, schedClass;
  }

  /** Resolution gets past step `j`, where it meets the class of step `i` again. */
  ghost predicate Revisits(m: Model, start: nat, i: nat, j: nat) {
    i < j && m.After(start, i) == m.After(start, j) && forall k :: 0 <= k < j ==> m.Steps(m.After(start, k))
  }

  /**
   The cyclic verdict is exact: it says that a class is met twice, and, the other way round, a chain that stops
   never meets a class twice, however long it is.
   */
  lemma CyclicIffRevisits(m: Model, start: nat)
    requires m.Valid() && start < m.classes
    ensures m.NeverStops(start)
            <==> exists i: nat, j: nat :: Revisits(m, start, i, j)
    ensures !m.NeverStops(start) ==> exists k: nat :: k < m.classes && m.StopsAt(start, k)
  {
    if m.NeverStops(start) {
      TooManySteps(m, start);
      var i: nat, j: nat :| i < j && m.After(start, i) == m.After(start, j);
      assert Revisits(m, start, i, j);
    }
    forall i: nat, j: nat | Revisits(m, start, i, j)
      ensures m.NeverStops(start)
    {
      forall k: nat
        ensures m.Steps(m.After(start, k))
      {
        var at := Loops(m, start, i, j, k);
      }
    }
    if !m.NeverStops(start) {
      var k := FirstStop(m, start);
    }
  }

  lemma FirstStop(m: Model, start: nat) returns (k: nat)
    requires m.Valid() && start < m.classes && !m.NeverStops(start)
    ensures k < m.classes && m.StopsAt(start, k)
  {
    k := 0;
    while k < m.classes && m.Steps(m.After(start, k))
      invariant k <= m.classes && forall j :: 0 <= j < k ==> m.Steps(m.After(start, j))
    {
      k := k + 1;
    }
    if k == m.classes {
      TooManySteps(m, start);
      assert false;
    }
  }
}
