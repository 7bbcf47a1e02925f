/**
 The managed LLVM patch stack: finding which patches of an ordered list a source tree already contains, in a
 private index, and applying the rest. A tree stands for the contents of the paths the patches touch.
 */
module PatchStack {
  import opened Prelude

  /** A patch file and a tree of files, path to contents. */
  datatype Patch = Patch(name: string, text: string)
  type Tree = map<string, string>

  datatype Error = NotPrefix | DoesNotApply

  datatype Result<T> = Ok(value: T) | Err(error: Error)

  /** `git apply` and `git apply --reverse`; `None` is a patch that does not go on. */
  datatype Git = Git(apply: (Patch, Tree) -> Option<Tree>, reverse: (Patch, Tree) -> Option<Tree>)
  {
    /** Applying and reversing one patch undo each other. */
    ghost predicate Inverse() {
      forall p: Patch, t: Tree, u: Tree :: apply(p, t) == Some(u) <==> reverse(p, u) == Some(t)
    }

    /** The patches in order, stopping at the first that does not go on. */
    function ApplyAll(tree: Tree, patches: seq<Patch>): Option<Tree>
      decreases |patches|
    {
      if patches == [] then Some(tree)
      else
        match apply(patches[0], tree)
        case None => None
        case Some(next) => ApplyAll(next, patches[1..])
    }

    /** Last patch first, take off whatever comes off: the stripped tree and what was taken, in list order. */
    function Strip(tree: Tree, patches: seq<Patch>): (Tree, seq<Patch>)
      decreases |patches|
    {
      if patches == [] then (tree, [])
      else
        var last := |patches| - 1;
        match reverse(patches[last], tree)
        case None => Strip(tree, patches[..last])
        case Some(before) =>
          var (base, applied) := Strip(before, patches[..last]);
          (base, applied + [patches[last]])
    }

    /** What `pending_patches` answers. */
    function Pending(tree: Tree, patches: seq<Patch>): Result<seq<Patch>> {
      var (base, applied) := Strip(tree, patches);
      if !(applied <= patches) then Err(NotPrefix)
      else if ApplyAll(base, patches).None? then Err(DoesNotApply)
      else Ok(patches[|applied|..])
    }
  }

  function Reversed<T>(s: seq<T>): seq<T> {
    if s == [] then [] else Reversed(s[1..]) + [s[0]]
  }

  lemma {:induction false} ReversedAppend<T>(s: seq<T>, x: T)
    ensures Reversed(s + [x]) == [x] + Reversed(s)
  {
    if s != [] {
      ReversedAppend(s[1..], x);
      assert (s + [x])[1..] == s[1..] + [x];
    }
  }

  lemma StripNone(git: Git)
    ensures forall tree :: git.Strip(tree, []) == (tree, []) && git.ApplyAll(tree, []) == Some(tree)
  {}

  lemma StripLast(git: Git, tree: Tree, rest: seq<Patch>, last: Patch)
    ensures git.Strip(tree, rest + [last])
         == match git.reverse(last, tree)
            case None => git.Strip(tree, rest)
            case Some(before) => (git.Strip(before, rest).0, git.Strip(before, rest).1 + [last])
  {
    assert (rest + [last])[..|rest|] == rest;
  }

  lemma ApplyFirst(git: Git, tree: Tree, first: Patch, rest: seq<Patch>)
    ensures git.ApplyAll(tree, [first] + rest)
         == match git.apply(first, tree)
            case None => None
            case Some(next) => git.ApplyAll(next, rest)
  {
    assert ([first] + rest)[1..] == rest;
  }

  /** The first loop of `pending_patches`, on the private index. */
  method StripApplied(git: Git, source: Tree, patches: seq<Patch>) returns (index: Tree, applied: seq<Patch>)
    ensures index == git.Strip(source, patches).0 && applied == git.Strip(source, patches).1
  {
    hide Git.Strip;
    index, applied := source, [];
    StripNone(git);
    assert patches[..|patches|] == patches;
    for i := |patches| downto 0
      invariant git.Strip(index, patches[..i]).0 == git.Strip(source, patches).0
      invariant git.Strip(index, patches[..i]).1 + Reversed(applied) == git.Strip(source, patches).1
    {
      assert patches[..i + 1] == patches[..i] + [patches[i]];
      StripLast(git, index, patches[..i], patches[i]);
      var before := git.reverse(patches[i], index);
      if before.Some? {
        ReversedAppend(applied, patches[i]);
        index := before.value;
        applied := applied + [patches[i]];
      }
    }
    assert patches[..0] == [] && [] + Reversed(applied) == Reversed(applied);
    applied := Reversed(applied);
  }

  /** Applies patches in order; `None` as soon as one does not go on. */
  method ApplyInOrder(git: Git, source: Tree, patches: seq<Patch>) returns (tree: Option<Tree>)
    ensures tree == git.ApplyAll(source, patches)
  {
    hide Git.ApplyAll;
    var index := source;
    StripNone(git);
    assert patches[0..] == patches;
    for i := 0 to |patches|
      invariant git.ApplyAll(index, patches[i..]) == git.ApplyAll(source, patches)
    {
      assert patches[i..] == [patches[i]] + patches[i + 1..];
      ApplyFirst(git, index, patches[i], patches[i + 1..]);
      var next := git.apply(patches[i], index);
      if next.None? {
        return None;
      }
      index := next.value;
    }
    assert patches[|patches|..] == [];
    tree := Some(index);
  }

  /** `pending_patches` */
  method PendingPatches(git: Git, source: Tree, patches: seq<Patch>) returns (r: Result<seq<Patch>>)
    ensures r == git.Pending(source, patches)
  {
    if patches == [] {
      return Ok([]);
    }
    hide Git.Strip, Git.ApplyAll;
    var index, applied := StripApplied(git, source, patches);
    if !(applied <= patches) {
      return Err(NotPrefix);
    }
    var all := ApplyInOrder(git, index, patches);
    if all.None? {
      return Err(DoesNotApply);
    }
    r := Ok(patches[|applied|..]);
  }

  /** `apply_patches`: `None` if finding the pending patches or applying one of them fails. */
  method ApplyPatches(git: Git, source: Tree, patches: seq<Patch>) returns (r: Option<Tree>)
    ensures git.Pending(source, patches).Err? ==> r == None
    ensures git.Inverse() && git.Pending(source, patches).Ok?
            ==> r == git.ApplyAll(git.Strip(source, patches).0, patches)
    ensures git.Inverse() ==> (r.Some? <==> git.Pending(source, patches).Ok?)
  {
    var pending := PendingPatches(git, source, patches);
    if pending.Err? {
      return None;
    }
    if git.Inverse() {
      PendingApplies(git, source, patches);
    }
    r := ApplyInOrder(git, source, pending.value);
  }

  lemma {:induction false} ApplyConcat(git: Git, tree: Tree, a: seq<Patch>, b: seq<Patch>)
    ensures git.ApplyAll(tree, a + b)
         == match git.ApplyAll(tree, a)
            case None => None
            case Some(middle) => git.ApplyAll(middle, b)
    decreases |a|
  {
    if a == [] {
      assert a + b == b;
    } else {
      assert (a + b)[1..] == a[1..] + b;
      match git.apply(a[0], tree)
      case None =>
      case Some(next) => ApplyConcat(git, next, a[1..], b);
    }
  }

  lemma ApplyNone(git: Git, tree: Tree)
    ensures git.ApplyAll(tree, []) == Some(tree)
  {}

  lemma OneStep(git: Git, p: Patch, before: Tree, after: Tree)
    requires git.Inverse()
    ensures git.apply(p, before) == Some(after) <==> git.reverse(p, after) == Some(before)
    ensures git.ApplyAll(before, [p]) == git.apply(p, before)
  {}

  /** Putting back what was stripped gives the tree again. */
  lemma {:induction false} StripUndone(git: Git, tree: Tree, patches: seq<Patch>)
    requires git.Inverse()
    ensures git.ApplyAll(git.Strip(tree, patches).0, git.Strip(tree, patches).1) == Some(tree)
    decreases |patches|
  {
    hide Git.Inverse, Git.ApplyAll;
    if patches == [] {
      assert git.ApplyAll(tree, []) == Some(tree) by {
        ApplyNone(git, tree);
      }
    } else {
      var last := |patches| - 1;
      match git.reverse(patches[last], tree)
      case None => StripUndone(git, tree, patches[..last]);
      case Some(before) =>
        StripUndone(git, before, patches[..last]);
        var (base, applied) := git.Strip(before, patches[..last]);
        ApplyConcat(git, base, applied, [patches[last]]);
        OneStep(git, patches[last], before, tree);
    }
  }

  /**
   Soundness: when the pending patches are found, what is applied is a prefix of the list, and applying the
   pending ones to the untouched source succeeds and gives all patches on the stripped base.
   */
  lemma PendingApplies(git: Git, source: Tree, patches: seq<Patch>)
    requires git.Inverse() && git.Pending(source, patches).Ok?
    ensures var (base, applied) := git.Strip(source, patches);
            && applied + git.Pending(source, patches).value == patches
            && git.ApplyAll(base, applied) == Some(source)
            && git.ApplyAll(source, git.Pending(source, patches).value) == git.ApplyAll(base, patches)
            && git.ApplyAll(base, patches).Some?
  {
    var (base, applied) := git.Strip(source, patches);
    StripUndone(git, source, patches);
    ApplyConcat(git, base, applied, patches[|applied|..]);
    assert applied + patches[|applied|..] == patches;
  }

  /** Stripping a fully patched tree takes every patch off. */
  lemma {:induction false} StripAll(git: Git, base: Tree, patches: seq<Patch>, tree: Tree)
    requires git.Inverse() && git.ApplyAll(base, patches) == Some(tree)
    ensures git.Strip(tree, patches) == (base, patches)
    decreases |patches|
  {
    hide Git.Inverse;
    if patches != [] {
      var last := |patches| - 1;
      ApplyConcat(git, base, patches[..last], [patches[last]]);
      assert patches[..last] + [patches[last]] == patches;
      var before := git.ApplyAll(base, patches[..last]).value;
      OneStep(git, patches[last], before, tree);
      StripAll(git, base, patches[..last], before);
    }
  }

  /** After a run that succeeded, a second run finds nothing pending and changes nothing. */
  lemma SecondRunIdle(git: Git, source: Tree, patches: seq<Patch>, tree: Tree)
    requires git.Inverse() && git.Pending(source, patches).Ok?
    requires git.ApplyAll(source, git.Pending(source, patches).value) == Some(tree)
    ensures git.Pending(tree, patches) == Ok([])
  {
    PendingApplies(git, source, patches);
    StripAll(git, git.Strip(source, patches).0, patches, tree);
  }

  predicate Distinct(patches: seq<Patch>) {
    forall i, j :: 0 <= i < j < |patches| ==> patches[i] != patches[j]
  }

  /** The source is `base` with the first `n` patches, the rest go on, and none of the rest comes off. */
  ghost predicate CleanPrefix(git: Git, base: Tree, patches: seq<Patch>, n: nat, source: Tree)
    requires n <= |patches|
  {
    && git.ApplyAll(base, patches[..n]) == Some(source)
    && git.ApplyAll(base, patches).Some?
    && forall j :: n <= j < |patches| ==> git.reverse(patches[j], source) == None
  }

  /** Patches that do not come off leave the tree to the earlier ones. */
  lemma {:induction false} StripSkips(git: Git, tree: Tree, patches: seq<Patch>, n: nat)
    requires n <= |patches| && forall j :: n <= j < |patches| ==> git.reverse(patches[j], tree) == None
    ensures git.Strip(tree, patches) == git.Strip(tree, patches[..n])
    decreases |patches|
  {
    if n == |patches| {
      assert patches[..n] == patches;
    } else {
      StripSkips(git, tree, patches[..|patches| - 1], n);
      assert patches[..|patches| - 1][..n] == patches[..n];
    }
  }

  lemma {:induction false} StrippedIn(git: Git, tree: Tree, patches: seq<Patch>)
    ensures |git.Strip(tree, patches).1| <= |patches|
    ensures forall p :: p in git.Strip(tree, patches).1 ==> p in patches
    decreases |patches|
  {
    if patches != [] {
      var last := |patches| - 1;
      match git.reverse(patches[last], tree)
      case None => StrippedIn(git, tree, patches[..last]);
      case Some(before) => StrippedIn(git, before, patches[..last]);
    }
  }

  /** If distinct patches strip to a prefix of the list, nothing beyond that prefix came off. */
  lemma {:induction false} PrefixSkips(git: Git, tree: Tree, patches: seq<Patch>)
    requires Distinct(patches) && git.Strip(tree, patches).1 <= patches
    ensures var n := |git.Strip(tree, patches).1|;
            forall j :: n <= j < |patches| ==> git.reverse(patches[j], tree) == None
    decreases |patches|
  {
    if patches != [] {
      var last := |patches| - 1;
      var applied := git.Strip(tree, patches).1;
      match git.reverse(patches[last], tree)
      case Some(before) =>
        StrippedIn(git, before, patches[..last]);
        assert applied[|applied| - 1] == patches[last] && applied[|applied| - 1] == patches[|applied| - 1];
        assert |applied| == |patches|;
      case None =>
        StrippedIn(git, tree, patches[..last]);
        assert applied <= patches[..last];
        PrefixSkips(git, tree, patches[..last]);
        assert forall j :: 0 <= j < last ==> patches[..last][j] == patches[j];
    }
  }

  /** For distinct patches, exactly the clean prefixes are recognised, each as itself. */
  lemma PendingIffCleanPrefix(git: Git, source: Tree, patches: seq<Patch>, n: nat)
    requires git.Inverse() && Distinct(patches) && n <= |patches|
    ensures git.Pending(source, patches) == Ok(patches[n..])
            <==> exists base :: CleanPrefix(git, base, patches, n, source)
  {
    if git.Pending(source, patches) == Ok(patches[n..]) {
      var (base, applied) := git.Strip(source, patches);
      assert |patches[|applied|..]| == |patches[n..]|;
      PendingApplies(git, source, patches);
      PrefixSkips(git, source, patches);
      assert patches[..n] == applied;
      assert CleanPrefix(git, base, patches, n, source);
    }
    forall base | CleanPrefix(git, base, patches, n, source)
      ensures git.Pending(source, patches) == Ok(patches[n..])
    {
      StripSkips(git, source, patches, n);
      StripAll(git, base, patches[..n], source);
    }
  }
}
