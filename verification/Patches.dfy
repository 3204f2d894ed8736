/** Applying patch series to a git index: what checking each exported patch against
    its commit establishes, and when two series are independent. */
module Patches {
  import opened Prelude
  import opened Series

  type Path = string

  type Tree = map<Path, string>

  /** What a patch does to one path: no answer when its hunks do not apply there,
      otherwise the new content, or no file. */
  type Edit = Option<string> -> Option<Option<string>>

  /** A patch file: the commit its first line names, and its edits. */
  datatype Patch = Patch(header: Option<Commit>, edits: map<Path, Edit>)

  function At(t: Tree, k: Path): Option<string> {
    if k in t then Some(t[k]) else None
  }

  predicate Fits(p: Patch, t: Tree) {
    forall k :: k in p.edits ==> p.edits[k](At(t, k)).Some?
  }

  function After(p: Patch, t: Tree, k: Path): Option<string>
    requires Fits(p, t)
  {
    if k in p.edits then p.edits[k](At(t, k)).value else At(t, k)
  }

  /** git apply: every edit or nothing. */
  function Apply(p: Patch, t: Tree): (r: Option<Tree>)
    ensures r.Some? <==> Fits(p, t)
    ensures r.Some? ==> forall k :: At(r.value, k) == After(p, t, k)
  {
    if Fits(p, t) then
      Some(map k | k in t.Keys + p.edits.Keys && After(p, t, k).Some? :: After(p, t, k).value)
    else
      None
  }

  lemma SameTree(s: Tree, t: Tree)
    requires forall k :: At(s, k) == At(t, k)
    ensures s == t
  {
    forall k ensures (k in s <==> k in t) && (k in s ==> s[k] == t[k]) {
      assert At(s, k) == At(t, k);
    }
  }

  /** A patch of one path gives its hunks that path's content, or the absence of a file,
      and leaves the rest; it applies exactly if they do. */
  lemma OneEdit(header: Option<Commit>, k: Path, edit: Edit, t: Tree)
    ensures
      Apply(Patch(header, map[k := edit]), t) ==
      match edit(if k in t then Some(t[k]) else None)
      case Some(Some(content)) => Some(t[k := content])
      case Some(None) => Some(t - {k})
      case None => None
  {
    var p := Patch(header, map[k := edit]);
    if Fits(p, t) {
      var r := Apply(p, t).value;
      assert At(r, k) == After(p, t, k);
      forall j | j != k ensures At(r, j) == At(t, j) { assert At(r, j) == After(p, t, j); }
      match After(p, t, k)
      case Some(content) => SameTree(r, t[k := content]);
      case None => SameTree(r, t - {k});
    } else {
      assert k in p.edits;
    }
  }

  function ApplyAll(ps: seq<Patch>, t: Tree): Option<Tree>
    decreases |ps|
  {
    if ps == [] then Some(t)
    else
      var r := Apply(ps[0], t);
      if r.None? then None else ApplyAll(ps[1..], r.value)
  }

  lemma {:induction false} ApplyAppend(ps: seq<Patch>, qs: seq<Patch>, t: Tree)
    ensures ApplyAll(ps + qs, t) == (var r := ApplyAll(ps, t); if r.None? then None else ApplyAll(qs, r.value))
    decreases |ps|
  {
    if ps == [] {
      assert ps + qs == qs;
    } else {
      assert (ps + qs)[1..] == ps[1..] + qs;
      var r := Apply(ps[0], t);
      if r.Some? { ApplyAppend(ps[1..], qs, r.value); }
    }
  }

  // ----- checking an exported series against its commits

  /** The temporary index file. */
  class Index {
    var tree: Tree

    constructor ReadTree(t: Tree)
      ensures tree == t
    {
      tree := t;
    }

    /** apply --cached --check, then apply --cached. */
    method ApplyCached(p: Patch) returns (ok: bool)
      modifies this
      ensures ok <==> Apply(p, old(tree)).Some?
      ensures tree == if ok then Apply(p, old(tree)).value else old(tree)
    {
      var r := Apply(p, tree);
      ok := r.Some?;
      if ok {
        tree := r.value;
      }
    }
  }

  /** Line i of the series is commit i: it names it, and takes the tree of the
      commit before it to its tree. */
  predicate Exports(tree: Commit -> Tree, base: Commit, cs: seq<Commit>, ps: seq<Patch>, i: nat)
    requires i < |cs| && i < |ps|
  {
    ps[i].header == Some(cs[i]) && Apply(ps[i], tree(Before(base, cs, i))) == Some(tree(cs[i]))
  }

  predicate SameTrees(tree: Commit -> Tree, cs: seq<Commit>, ds: seq<Commit>) {
    |cs| == |ds| && forall i :: 0 <= i < |cs| ==> tree(cs[i]) == tree(ds[i])
  }

  /** verify, after linear_series for the range and, if given, the previous one:
      it passes exactly for an export of the range whose rewriting kept every tree. */
  method Verify(
    tree: Commit -> Tree, base: Commit, commits: seq<Commit>, previous: Option<seq<Commit>>, clean: bool,
    patches: seq<Patch>)
    returns (ok: bool)
    ensures ok <==>
      && |patches| == |commits|
      && (previous.Some? ==> SameTrees(tree, previous.value, commits))
      && clean
      && forall i :: 0 <= i < |commits| ==> Exports(tree, base, commits, patches, i)
  {
    if |patches| != |commits| {
      return false;
    }
    if previous.Some? {
      if |previous.value| != |commits| {
        return false;
      }
      for i := 0 to |commits|
        invariant forall j :: 0 <= j < i ==> tree(previous.value[j]) == tree(commits[j])
      {
        if tree(previous.value[i]) != tree(commits[i]) {
          return false;
        }
      }
    }
    if !clean {
      return false;
    }
    var index := new Index.ReadTree(tree(base));
    for i := 0 to |commits|
      invariant index.tree == tree(Before(base, commits, i))
      invariant fresh(index)
      invariant forall j :: 0 <= j < i ==> Exports(tree, base, commits, patches, j)
    {
      if patches[i].header != Some(commits[i]) {
        assert !Exports(tree, base, commits, patches, i);
        return false;
      }
      var applied := index.ApplyCached(patches[i]);
      if !applied || index.tree != tree(commits[i]) {
        assert !Exports(tree, base, commits, patches, i);
        return false;
      }
    }
    return true;
  }

  lemma {:induction false} ExportReplays(tree: Commit -> Tree, base: Commit, cs: seq<Commit>, ps: seq<Patch>, n: nat)
    requires |ps| == |cs| && n <= |cs|
    requires forall i :: 0 <= i < |cs| ==> Exports(tree, base, cs, ps, i)
    ensures ApplyAll(ps[..n], tree(base)) == Some(tree(Before(base, cs, n)))
  {
    if n > 0 {
      ExportReplays(tree, base, cs, ps, n - 1);
      assert Exports(tree, base, cs, ps, n - 1);
      assert ps[..n] == ps[..n - 1] + [ps[n - 1]];
      ApplyAppend(ps[..n - 1], [ps[n - 1]], tree(base));
    }
  }

  /** A series that passes rebuilds the tree of head from the tree of base, in
      whatever order git listed the range, and each listed commit's on the way. */
  lemma VerifiedSeriesRebuilds(
    g: Graph, tree: Commit -> Tree, base: Commit, head: Commit, rows: seq<seq<Commit>>, cs: seq<Commit>, ps: seq<Patch>)
    requires Listing(g, base, head, rows) && rows != [] && InOrder(base, rows, cs)
    requires |ps| == |cs| && forall i :: 0 <= i < |cs| ==> Exports(tree, base, cs, ps, i)
    ensures ApplyAll(ps, tree(base)) == Some(tree(head))
    ensures forall n :: 0 < n <= |cs| ==> ApplyAll(ps[..n], tree(base)) == Some(tree(cs[n - 1]))
  {
    AcceptedIsLinear(g, base, head, rows, cs);
    forall n | 0 < n <= |cs| ensures ApplyAll(ps[..n], tree(base)) == Some(tree(cs[n - 1])) {
      ExportReplays(tree, base, cs, ps, n);
    }
    assert ps[..|cs|] == ps;
  }

  /** A line of the series file, as the file system answers for it. */
  datatype Line =
    | Blank
    | Comment
    | Name(path: Path, inside: bool, absolute: bool, file: bool)

  predicate Names(l: Line) { l.Name? }

  function Named(ls: seq<Line>): seq<Path> {
    if ls == [] then []
    else if Names(ls[|ls| - 1]) then Named(ls[..|ls| - 1]) + [ls[|ls| - 1].path]
    else Named(ls[..|ls| - 1])
  }

  predicate Usable(l: Line) { Names(l) ==> l.inside && !l.absolute && l.file }

  predicate Distinct(ps: seq<Path>) { forall i, j :: 0 <= i < j < |ps| ==> ps[i] != ps[j] }

  lemma {:induction false} NamedGrows(ls: seq<Line>, n: nat)
    requires n <= |ls|
    ensures |Named(ls[..n])| <= |Named(ls)| && Named(ls)[..|Named(ls[..n])|] == Named(ls[..n])
    decreases |ls|
  {
    if n < |ls| {
      NamedGrows(ls[..|ls| - 1], n);
      assert ls[..|ls| - 1][..n] == ls[..n];
    } else {
      assert ls[..n] == ls;
    }
  }

  /** read_series: the files named, in order, each once; None is the error. */
  method ReadSeries(lines: seq<Line>) returns (r: Option<seq<Path>>)
    ensures r.Some? <==>
      (forall i :: 0 <= i < |lines| ==> Usable(lines[i])) && Distinct(Named(lines)) && Named(lines) != []
    ensures r.Some? ==> r.value == Named(lines)
  {
    var patches: seq<Path> := [];
    var seen: set<Path> := {};
    for i := 0 to |lines|
      invariant patches == Named(lines[..i]) && Distinct(patches)
      invariant forall p :: p in seen <==> p in patches
      invariant forall j :: 0 <= j < i ==> Usable(lines[j])
    {
      var line := lines[i];
      assert lines[..i + 1][..i] == lines[..i];
      if !line.Name? {
        continue;
      }
      if !line.inside || line.absolute || line.path in seen || !line.file {
        if Usable(line) {
          var k :| 0 <= k < |patches| && patches[k] == line.path;
          var named := Named(lines[..i + 1]);
          assert named[k] == named[|patches|];
          NamedGrows(lines, i + 1);
          assert named[k] == Named(lines)[k] && named[|patches|] == Named(lines)[|patches|];
        }
        return None;
      }
      patches := patches + [line.path];
      seen := seen + {line.path};
    }
    assert lines[..|lines|] == lines;
    return if patches == [] then None else Some(patches);
  }

  // ----- independent series

  function Paths(ps: seq<Patch>): set<Path>
    decreases |ps|
  {
    if ps == [] then {} else ps[0].edits.Keys + Paths(ps[1..])
  }

  /** No patch of one touches a path that a patch of the other touches. */
  predicate Disjoint(ps: seq<Patch>, qs: seq<Patch>) {
    Paths(ps) !! Paths(qs)
  }

  predicate AgreeOn(ks: set<Path>, s: Tree, t: Tree) {
    forall k :: k in ks ==> At(s, k) == At(t, k)
  }

  ghost predicate AgreeOff(ks: set<Path>, s: Tree, t: Tree) {
    forall k :: k !in ks ==> At(s, k) == At(t, k)
  }

  lemma PatchIsLocal(p: Patch, ks: set<Path>, s: Tree, t: Tree)
    requires p.edits.Keys <= ks && AgreeOn(ks, s, t)
    ensures Apply(p, s).Some? <==> Apply(p, t).Some?
    ensures Apply(p, s).Some? ==>
      AgreeOn(ks, Apply(p, s).value, Apply(p, t).value) && AgreeOff(p.edits.Keys, Apply(p, s).value, s)
  {
    forall k | k in p.edits ensures At(s, k) == At(t, k) { assert k in ks; }
    if Fits(p, s) {
      forall k ensures k in ks ==> After(p, s, k) == After(p, t, k) {}
    }
  }

  /** A series reads only the paths it touches, and changes no other. */
  lemma {:induction false} SeriesIsLocal(ps: seq<Patch>, ks: set<Path>, s: Tree, t: Tree)
    requires Paths(ps) <= ks && AgreeOn(ks, s, t)
    ensures ApplyAll(ps, s).Some? <==> ApplyAll(ps, t).Some?
    ensures ApplyAll(ps, s).Some? ==>
      AgreeOn(ks, ApplyAll(ps, s).value, ApplyAll(ps, t).value) && AgreeOff(Paths(ps), ApplyAll(ps, s).value, s)
    decreases |ps|
  {
    if ps != [] {
      PatchIsLocal(ps[0], ks, s, t);
      if Apply(ps[0], s).Some? {
        var u := Apply(ps[0], s).value;
        SeriesIsLocal(ps[1..], ks, u, Apply(ps[0], t).value);
      }
    }
  }

  /** Disjoint series apply one after the other exactly when each applies alone, and
      the result has each one's own result on the paths that one touches. */
  lemma IndependentMerges(ps: seq<Patch>, qs: seq<Patch>, t: Tree)
    requires Disjoint(ps, qs)
    ensures ApplyAll(ps + qs, t).Some? <==> ApplyAll(ps, t).Some? && ApplyAll(qs, t).Some?
    ensures ApplyAll(ps + qs, t).Some? ==> forall k ::
      At(ApplyAll(ps + qs, t).value, k) ==
      if k in Paths(ps) then At(ApplyAll(ps, t).value, k)
      else if k in Paths(qs) then At(ApplyAll(qs, t).value, k)
      else At(t, k)
  {
    ApplyAppend(ps, qs, t);
    SeriesIsLocal(ps, Paths(ps), t, t);
    if ApplyAll(ps, t).Some? { SeriesIsLocal(qs, Paths(qs), ApplyAll(ps, t).value, t); }
  }

  /** So their order does not matter: both refuse, or both give the same tree. */
  lemma IndependentCommute(ps: seq<Patch>, qs: seq<Patch>, t: Tree)
    requires Disjoint(ps, qs)
    ensures ApplyAll(ps + qs, t) == ApplyAll(qs + ps, t)
  {
    IndependentMerges(ps, qs, t);
    IndependentMerges(qs, ps, t);
    if ApplyAll(ps + qs, t).Some? {
      SameTree(ApplyAll(ps + qs, t).value, ApplyAll(qs + ps, t).value);
    }
  }

  /** On a shared path both orders can apply and differ. */
  lemma OverlapMatters(k: Path, a: string, b: string, t: Tree)
    requires a != b
    ensures
      var p := Patch(None, map[k := (was: Option<string>) => Some(Some(a))]);
      var q := Patch(None, map[k := (was: Option<string>) => Some(Some(b))]);
      var pq, qp := ApplyAll([p] + [q], t), ApplyAll([q] + [p], t);
      pq.Some? && qp.Some? && pq.value != qp.value
  {
    var p := Patch(None, map[k := (was: Option<string>) => Some(Some(a))]);
    var q := Patch(None, map[k := (was: Option<string>) => Some(Some(b))]);
    ApplyAppend([p], [q], t);
    ApplyAppend([q], [p], t);
    assert At(ApplyAll([p] + [q], t).value, k) == Some(b);
    assert At(ApplyAll([q] + [p], t).value, k) == Some(a);
  }

  /** One series applied patch by patch to the index. */
  method ApplySeries(index: Index, patches: seq<Patch>) returns (ok: bool)
    modifies index
    ensures ok <==> ApplyAll(patches, old(index.tree)).Some?
    ensures ok ==> ApplyAll(patches, old(index.tree)) == Some(index.tree)
  {
    for i := 0 to |patches|
      invariant ApplyAll(patches[..i], old(index.tree)) == Some(index.tree)
    {
      ApplyAppend(patches[..i], [patches[i]], old(index.tree));
      assert patches[..i + 1] == patches[..i] + [patches[i]];
      var applied := index.ApplyCached(patches[i]);
      if !applied {
        ApplyAppend(patches[..i + 1], patches[i + 1..], old(index.tree));
        assert patches == patches[..i + 1] + patches[i + 1..];
        return false;
      }
    }
    assert patches[..|patches|] == patches;
    return true;
  }

  /** The loop over both orders: every patch applies and both trees are the expected one. */
  method VerifyIndependent(base: Tree, expected: Tree, a: seq<Patch>, b: seq<Patch>) returns (ok: bool)
    ensures ok <==> ApplyAll(a + b, base) == Some(expected) && ApplyAll(b + a, base) == Some(expected)
  {
    var orders := [[a, b], [b, a]];
    for n := 0 to 2
      invariant forall m :: 0 <= m < n ==> ApplyAll(orders[m][0] + orders[m][1], base) == Some(expected)
    {
      var order := orders[n];
      ApplyAppend(order[0], order[1], base);
      var index := new Index.ReadTree(base);
      var applied := ApplySeries(index, order[0]);
      if !applied {
        return false;
      }
      applied := ApplySeries(index, order[1]);
      if !applied || index.tree != expected {
        return false;
      }
    }
    assert orders[0] == [a, b] && orders[1] == [b, a];
    return true;
  }
}
