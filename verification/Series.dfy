/** Patch series: when a commit range is accepted as linear, and what checking and
    reordering its patches establishes. */
module Series {
  import opened Prelude

  // ----- commits

  type Commit = nat

  /** The parents of every commit, in order; a root has none. */
  type Graph = map<Commit, seq<Commit>>

  function Parents(g: Graph, c: Commit): seq<Commit> { if c in g then g[c] else [] }

  predicate StepAt(g: Graph, p: seq<Commit>, i: nat)
    requires i + 1 < |p|
  {
    p[i + 1] in Parents(g, p[i])
  }

  predicate Path(g: Graph, p: seq<Commit>) {
    p != [] && forall i :: 0 <= i < |p| - 1 ==> StepAt(g, p, i)
  }

  ghost predicate Reaches(g: Graph, a: Commit, b: Commit) {
    exists p: seq<Commit> :: Path(g, p) && p[0] == a && p[|p| - 1] == b
  }

  /** rev-list --parents base..head, in whatever order: one row for each commit
      reachable from head and not from base, the commit in front of its parents. */
  ghost predicate Listing(g: Graph, base: Commit, head: Commit, rows: seq<seq<Commit>>) {
    && (forall i :: 0 <= i < |rows| ==> rows[i] != [] && rows[i][1..] == Parents(g, rows[i][0]))
    && (forall i, j :: 0 <= i < j < |rows| ==> rows[i][0] != rows[j][0])
    && (forall i :: 0 <= i < |rows| ==> InRange(g, base, head, rows[i][0]))
    && (forall c: Commit :: InRange(g, base, head, c) ==> Lists(rows, c))
  }

  ghost predicate InRange(g: Graph, base: Commit, head: Commit, c: Commit) {
    Reaches(g, head, c) && !Reaches(g, base, c)
  }

  predicate Lists(rows: seq<seq<Commit>>, c: Commit) {
    exists i :: 0 <= i < |rows| && rows[i] != [] && rows[i][0] == c
  }

  /** The i-th commit's predecessor in a series from base. */
  function Before(base: Commit, cs: seq<Commit>, i: nat): Commit
    requires i <= |cs|
  {
    if i == 0 then base else cs[i - 1]
  }

  predicate RowAt(base: Commit, rows: seq<seq<Commit>>, cs: seq<Commit>, i: nat)
    requires i < |rows| && i < |cs|
  {
    rows[i] == [cs[i], Before(base, cs, i)]
  }

  /** Every row is a commit with its predecessor as the only parent. */
  predicate InOrder(base: Commit, rows: seq<seq<Commit>>, cs: seq<Commit>) {
    |rows| == |cs| && forall i :: 0 <= i < |rows| ==> RowAt(base, rows, cs, i)
  }

  /** linear_series, given the answers of git: None is the error. */
  method LinearSeries(ancestor: bool, base: Commit, rows: seq<seq<Commit>>) returns (r: Option<seq<Commit>>)
    ensures r.Some? ==> ancestor && rows != [] && InOrder(base, rows, r.value)
    ensures r.None? ==> !ancestor || rows == [] || forall cs: seq<Commit> :: !InOrder(base, rows, cs)
  {
    if !ancestor || rows == [] {
      return None;
    }
    var commits: seq<Commit> := [];
    var parent := base;
    for n := 0 to |rows|
      invariant |commits| == n && parent == Before(base, commits, n)
      invariant forall i :: 0 <= i < n ==> RowAt(base, rows, commits, i)
    {
      var fields := rows[n];
      if |fields| != 2 || fields[1] != parent {
        forall cs: seq<Commit> ensures !InOrder(base, rows, cs) {
          if InOrder(base, rows, cs) { SamePrefix(base, rows, cs, commits); }
        }
        return None;
      }
      ghost var done := commits;
      commits := commits + [fields[0]];
      parent := fields[0];
      forall i | 0 <= i <= n ensures RowAt(base, rows, commits, i) {
        if i < n { assert RowAt(base, rows, done, i); }
      }
    }
    return Some(commits);
  }

  lemma SamePrefix(base: Commit, rows: seq<seq<Commit>>, cs: seq<Commit>, ds: seq<Commit>)
    requires InOrder(base, rows, cs) && |ds| < |cs|
    requires forall i :: 0 <= i < |ds| ==> RowAt(base, rows, ds, i)
    ensures rows[|ds|] == [cs[|ds|], Before(base, ds, |ds|)]
  {
    assert RowAt(base, rows, cs, |ds|);
    if ds != [] { assert RowAt(base, rows, cs, |ds| - 1) && RowAt(base, rows, ds, |ds| - 1); }
  }

  /** A path of single-parent commits that starts above base. */
  predicate Linear(g: Graph, base: Commit, cs: seq<Commit>) {
    cs != [] && forall i :: 0 <= i < |cs| ==> LinkAt(g, base, cs, i)
  }

  predicate LinkAt(g: Graph, base: Commit, cs: seq<Commit>, i: nat)
    requires i < |cs|
  {
    cs[i] != base && Parents(g, cs[i]) == [Before(base, cs, i)]
  }

  lemma ReachesSelf(g: Graph, c: Commit)
    ensures Reaches(g, c, c)
  {
    assert Path(g, [c]);
  }

  lemma PathExtends(g: Graph, p: seq<Commit>, q: seq<Commit>)
    requires Path(g, p) && Path(g, q) && p[|p| - 1] == q[0]
    ensures Path(g, p + q[1..]) && (p + q[1..])[|p| + |q| - 2] == q[|q| - 1]
  {
    var r := p + q[1..];
    forall i | 0 <= i < |r| - 1 ensures StepAt(g, r, i) {
      if i < |p| - 1 { assert StepAt(g, p, i); } else { assert StepAt(g, q, i - |p| + 1); }
    }
  }

  lemma ReachesThrough(g: Graph, a: Commit, b: Commit, c: Commit)
    requires Reaches(g, a, b) && Reaches(g, b, c)
    ensures Reaches(g, a, c)
  {
    var p: seq<Commit> :| Path(g, p) && p[0] == a && p[|p| - 1] == b;
    var q: seq<Commit> :| Path(g, q) && q[0] == b && q[|q| - 1] == c;
    PathExtends(g, p, q);
    assert (p + q[1..])[0] == a;
  }

  lemma ReachesParent(g: Graph, a: Commit, b: Commit, c: Commit)
    requires Reaches(g, a, b) && c in Parents(g, b)
    ensures Reaches(g, a, c)
  {
    assert StepAt(g, [b, c], 0);
    assert Path(g, [b, c]);
    assert Reaches(g, b, c);
    ReachesThrough(g, a, b, c);
  }

  lemma PathTail(g: Graph, p: seq<Commit>)
    requires Path(g, p) && |p| > 1
    ensures Path(g, p[1..]) && p[1] in Parents(g, p[0]) && p[1..][|p| - 2] == p[|p| - 1]
  {
    assert StepAt(g, p, 0);
    forall i | 0 <= i < |p| - 2 ensures StepAt(g, p[1..], i) { assert StepAt(g, p, i + 1); }
  }

  /** From the i-th commit of a linear path only earlier commits of it, and what
      base reaches, can be reached. */
  lemma {:induction false} LinearReach(g: Graph, base: Commit, cs: seq<Commit>, i: nat, p: seq<Commit>)
    requires Linear(g, base, cs) && i < |cs| && Path(g, p) && p[0] == cs[i]
    ensures (exists k :: 0 <= k <= i && p[|p| - 1] == cs[k]) || Reaches(g, base, p[|p| - 1])
    decreases |p|
  {
    if |p| > 1 {
      PathTail(g, p);
      assert LinkAt(g, base, cs, i);
      if i > 0 { LinearReach(g, base, cs, i - 1, p[1..]); }
    } else {
      assert p[|p| - 1] == cs[i];
    }
  }

  lemma AcceptedLinks(g: Graph, base: Commit, head: Commit, rows: seq<seq<Commit>>, cs: seq<Commit>)
    requires Listing(g, base, head, rows) && rows != [] && InOrder(base, rows, cs)
    ensures Linear(g, base, cs) && forall i :: 0 <= i < |rows| ==> rows[i] != [] && rows[i][0] == cs[i]
  {
    ReachesSelf(g, base);
    forall i | 0 <= i < |cs| ensures LinkAt(g, base, cs, i) && rows[i][0] == cs[i] {
      assert RowAt(base, rows, cs, i);
      assert rows[i][1..] == [Before(base, cs, i)];
      assert InRange(g, base, head, rows[i][0]);
    }
  }

  /** What linear_series accepts, from any listing of the range, is a single-parent
      path from base to head. */
  lemma AcceptedIsLinear(g: Graph, base: Commit, head: Commit, rows: seq<seq<Commit>>, cs: seq<Commit>)
    requires Listing(g, base, head, rows) && rows != [] && InOrder(base, rows, cs)
    ensures Linear(g, base, cs) && cs[|cs| - 1] == head
  {
    AcceptedLinks(g, base, head, rows, cs);
    var n := |cs| - 1;
    assert InRange(g, base, head, rows[0][0]) && InRange(g, base, head, rows[n][0]);
    if Reaches(g, base, head) { ReachesThrough(g, base, head, rows[0][0]); }
    ReachesSelf(g, head);
    assert InRange(g, base, head, head);
    assert Lists(rows, head);
    var j :| 0 <= j < |rows| && rows[j] != [] && rows[j][0] == head;
    var p: seq<Commit> :| Path(g, p) && p[0] == head && p[|p| - 1] == rows[n][0];
    LinearReach(g, base, cs, j, p);
    var k :| 0 <= k <= j && cs[n] == cs[k];
    assert rows[k][0] == rows[n][0];
  }

  lemma LinearPrefix(g: Graph, base: Commit, cs: seq<Commit>, n: nat)
    requires Linear(g, base, cs) && 0 < n <= |cs|
    ensures Linear(g, base, cs[..n])
  {
    forall i | 0 <= i < n ensures LinkAt(g, base, cs[..n], i) { assert LinkAt(g, base, cs, i); }
  }

  /** There is at most one such path. */
  lemma {:induction false} LinearUnique(g: Graph, base: Commit, cs: seq<Commit>, ds: seq<Commit>)
    requires Linear(g, base, cs) && Linear(g, base, ds) && cs[|cs| - 1] == ds[|ds| - 1]
    ensures cs == ds
    decreases |cs|
  {
    var n, m := |cs| - 1, |ds| - 1;
    assert LinkAt(g, base, cs, n) && LinkAt(g, base, ds, m);
    if n > 0 { assert LinkAt(g, base, cs, n - 1); }
    if m > 0 { assert LinkAt(g, base, ds, m - 1); }
    if n > 0 && m > 0 {
      LinearPrefix(g, base, cs, n);
      LinearPrefix(g, base, ds, m);
      LinearUnique(g, base, cs[..n], ds[..m]);
    }
    assert cs == cs[..n] + [cs[n]] && ds == ds[..m] + [ds[m]];
  }

  /** No commit is its own ancestor: parents are older. */
  predicate Acyclic(g: Graph, age: map<Commit, nat>) {
    forall c :: c in g ==> c in age && forall p :: p in g[c] ==> p in age && age[p] < age[c]
  }

  lemma {:induction false} PathAges(g: Graph, age: map<Commit, nat>, p: seq<Commit>)
    requires Acyclic(g, age) && Path(g, p) && p[0] in age
    ensures p[|p| - 1] in age && age[p[|p| - 1]] <= age[p[0]]
    decreases |p|
  {
    if |p| > 1 {
      PathTail(g, p);
      PathAges(g, age, p[1..]);
    }
  }

  function Rows(base: Commit, cs: seq<Commit>): (rows: seq<seq<Commit>>)
    ensures InOrder(base, rows, cs)
  {
    var rows := seq(|cs|, i requires 0 <= i < |cs| => [cs[i], Before(base, cs, i)]);
    assert forall i :: 0 <= i < |cs| ==> RowAt(base, rows, cs, i);
    rows
  }

  lemma {:induction false} LinearAges(g: Graph, age: map<Commit, nat>, base: Commit, cs: seq<Commit>, i: nat, j: nat)
    requires Acyclic(g, age) && Linear(g, base, cs) && i < j <= |cs|
    ensures
      var a, b := Before(base, cs, i), Before(base, cs, j);
      a in age && b in age && age[a] < age[b]
    decreases j
  {
    assert LinkAt(g, base, cs, j - 1);
    assert Before(base, cs, j - 1) in g[cs[j - 1]];
    if i < j - 1 { LinearAges(g, age, base, cs, i, j - 1); }
  }

  lemma {:induction false} HeadReaches(g: Graph, base: Commit, cs: seq<Commit>, i: nat)
    requires Linear(g, base, cs) && i < |cs|
    ensures Reaches(g, cs[|cs| - 1], cs[i])
    decreases |cs| - i
  {
    if i == |cs| - 1 {
      ReachesSelf(g, cs[i]);
    } else {
      HeadReaches(g, base, cs, i + 1);
      assert LinkAt(g, base, cs, i + 1);
      ReachesParent(g, cs[|cs| - 1], cs[i + 1], cs[i]);
    }
  }

  /** Nothing base reaches is on the path: it is at most as old as base. */
  lemma BaseMisses(g: Graph, age: map<Commit, nat>, base: Commit, cs: seq<Commit>, i: nat)
    requires Acyclic(g, age) && Linear(g, base, cs) && i < |cs|
    ensures !Reaches(g, base, cs[i])
  {
    LinearAges(g, age, base, cs, 0, i + 1);
    if Reaches(g, base, cs[i]) {
      var p: seq<Commit> :| Path(g, p) && p[0] == base && p[|p| - 1] == cs[i];
      PathAges(g, age, p);
    }
  }

  lemma HeadReachesOnly(g: Graph, base: Commit, cs: seq<Commit>, c: Commit)
    requires Linear(g, base, cs) && InRange(g, base, cs[|cs| - 1], c)
    ensures c in cs
  {
    var p: seq<Commit> :| Path(g, p) && p[0] == cs[|cs| - 1] && p[|p| - 1] == c;
    LinearReach(g, base, cs, |cs| - 1, p);
  }

  lemma RowsList(base: Commit, cs: seq<Commit>, c: Commit)
    requires c in cs
    ensures Lists(Rows(base, cs), c)
  {
    var k :| 0 <= k < |cs| && cs[k] == c;
    assert RowAt(base, Rows(base, cs), cs, k);
  }

  lemma RowsHold(g: Graph, age: map<Commit, nat>, base: Commit, cs: seq<Commit>, i: nat)
    requires Acyclic(g, age) && Linear(g, base, cs) && i < |cs|
    ensures
      var row := Rows(base, cs)[i];
      row != [] && row[0] == cs[i] && row[1..] == Parents(g, cs[i]) && InRange(g, base, cs[|cs| - 1], cs[i])
  {
    assert RowAt(base, Rows(base, cs), cs, i) && LinkAt(g, base, cs, i);
    HeadReaches(g, base, cs, i);
    BaseMisses(g, age, base, cs, i);
  }

  lemma RowsDiffer(g: Graph, age: map<Commit, nat>, base: Commit, cs: seq<Commit>, i: nat, j: nat)
    requires Acyclic(g, age) && Linear(g, base, cs) && i < j < |cs|
    ensures Rows(base, cs)[i][0] != Rows(base, cs)[j][0]
  {
    RowsHold(g, age, base, cs, i);
    RowsHold(g, age, base, cs, j);
    LinearAges(g, age, base, cs, i + 1, j + 1);
  }

  lemma RowsListing(g: Graph, age: map<Commit, nat>, base: Commit, cs: seq<Commit>)
    requires Acyclic(g, age) && Linear(g, base, cs)
    ensures Listing(g, base, cs[|cs| - 1], Rows(base, cs))
  {
    var rows, head := Rows(base, cs), cs[|cs| - 1];
    assert |rows| == |cs|;
    forall i | 0 <= i < |cs|
      ensures rows[i] != [] && rows[i][1..] == Parents(g, rows[i][0]) && InRange(g, base, head, rows[i][0])
    {
      RowsHold(g, age, base, cs, i);
    }
    forall i, j | 0 <= i < j < |cs| ensures rows[i][0] != rows[j][0] {
      RowsDiffer(g, age, base, cs, i, j);
    }
    forall c: Commit | InRange(g, base, head, c) ensures Lists(rows, c) {
      HeadReachesOnly(g, base, cs, c);
      RowsList(base, cs, c);
    }
  }

  /** Conversely a single-parent path from base to head in an acyclic history is
      the range, and its listing from base up is accepted. */
  lemma LinearIsAccepted(g: Graph, age: map<Commit, nat>, base: Commit, cs: seq<Commit>)
    requires Acyclic(g, age) && Linear(g, base, cs)
    ensures Listing(g, base, cs[|cs| - 1], Rows(base, cs)) && InOrder(base, Rows(base, cs), cs)
    ensures Reaches(g, cs[|cs| - 1], base)
  {
    RowsListing(g, age, base, cs);
    assert LinkAt(g, base, cs, 0);
    HeadReaches(g, base, cs, 0);
    ReachesParent(g, cs[|cs| - 1], cs[0], base);
  }
}
