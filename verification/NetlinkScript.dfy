/** What well-bracketed calls of the stack builder write. */
module NetlinkScript {
  import opened Prelude
  import opened Octets
  import opened NetlinkTlv
  import opened NetlinkStack

  datatype Call = CallAttr(kind: nat, data: Bytes) | CallNest(kind: nat) | CallDone

  predicate Allowed(m: Msg, c: Call) {
    match c
    case CallAttr(_, data) => AttrFits(m, data)
    case CallNest(_) => NestFits(m)
    case CallDone => CanClose(m)
  }

  function Do(m: Msg, c: Call): Msg
    requires Allowed(m, c)
  {
    match c
    case CallAttr(kind, data) => AddAttr(m, kind, data)
    case CallNest(kind) => OpenNest(m, kind)
    case CallDone => CloseNest(m)
  }

  /** Every call keeps to the buffer and to the nesting array. */
  predicate Runs(m: Msg, calls: seq<Call>)
    decreases |calls|
  {
    calls == [] || (Allowed(m, calls[0]) && Runs(Do(m, calls[0]), calls[1..]))
  }

  function Run(m: Msg, calls: seq<Call>): Msg
    requires Runs(m, calls)
    decreases |calls|
  {
    if calls == [] then m else Run(Do(m, calls[0]), calls[1..])
  }

  /** The calls made one after the other on a live message. */
  method RunOn(msg: NlMsg, calls: seq<Call>)
    requires msg.Valid() && Runs(msg.Model(), calls)
    modifies msg`pos, msg`nesting, msg.nested, msg.buf
    ensures msg.Valid() && msg.Model() == Run(old(msg.Model()), calls)
  {
    for i := 0 to |calls|
      invariant msg.Valid() && Runs(msg.Model(), calls[i..])
      invariant Run(msg.Model(), calls[i..]) == Run(old(msg.Model()), calls)
    {
      assert calls[i..][0] == calls[i] && calls[i..][1..] == calls[i + 1..];
      match calls[i]
      case CallAttr(kind, data) => msg.Attr(kind, data);
      case CallNest(kind) => msg.Nest(kind);
      case CallDone => msg.Done();
    }
  }

  // ----- well-bracketed call sequences are the scripts of forests

  function ScriptOne(t: Tree): seq<Call>
    decreases t, 0
  {
    match t
    case Leaf(kind, data) => [CallAttr(kind, data)]
    case Nest(kind, kids) => [CallNest(kind)] + Script(kids) + [CallDone]
  }

  function Script(ts: seq<Tree>): seq<Call>
    decreases ts
  {
    if ts == [] then [] else ScriptOne(ts[0]) + Script(ts[1..])
  }

  /** Depth of open nests after the calls, -1 once a close had nothing to close. */
  function Depth(calls: seq<Call>, d: int): int
    decreases |calls|
  {
    if calls == [] || d < 0 then d
    else Depth(calls[1..], match calls[0] { case CallNest(_) => d + 1 case CallDone => d - 1 case _ => d })
  }

  predicate WellBracketed(calls: seq<Call>) { Depth(calls, 0) == 0 }

  /** Forests with one unmatched close between each two. */
  function Joined(fs: seq<seq<Tree>>): seq<Call>
    requires fs != []
  {
    if |fs| == 1 then Script(fs[0]) else Script(fs[0]) + [CallDone] + Joined(fs[1..])
  }

  lemma JoinedHead(p: seq<Call>, f: seq<Tree>, g: seq<Tree>, fs: seq<seq<Tree>>)
    requires Script(f) == p + Script(g)
    ensures Joined([f] + fs) == p + Joined([g] + fs)
  {
    if fs != [] {
      assert ([f] + fs)[1..] == fs && ([g] + fs)[1..] == fs;
      assert p + Script(g) + [CallDone] + Joined(fs) == p + (Script(g) + [CallDone] + Joined(fs));
    }
  }

  lemma BracketsAttr(kind: nat, data: Bytes, gs: seq<seq<Tree>>) returns (fs: seq<seq<Tree>>)
    requires gs != []
    ensures |fs| == |gs| && Joined(fs) == [CallAttr(kind, data)] + Joined(gs)
  {
    var f := [Leaf(kind, data)] + gs[0];
    assert f[1..] == gs[0];
    fs := [f] + gs[1..];
    JoinedHead([CallAttr(kind, data)], f, gs[0], gs[1..]);
    assert [gs[0]] + gs[1..] == gs;
  }

  lemma BracketsDone(gs: seq<seq<Tree>>) returns (fs: seq<seq<Tree>>)
    requires gs != []
    ensures |fs| == |gs| + 1 && Joined(fs) == [CallDone] + Joined(gs)
  {
    fs := [[]] + gs;
    assert fs[1..] == gs;
    assert Script([]) + [CallDone] + Joined(gs) == [CallDone] + Joined(gs);
  }

  lemma BracketsNest(kind: nat, gs: seq<seq<Tree>>) returns (fs: seq<seq<Tree>>)
    requires |gs| > 1
    ensures |fs| == |gs| - 1 && Joined(fs) == [CallNest(kind)] + Joined(gs)
  {
    var f := [Nest(kind, gs[0])] + gs[1];
    assert f[1..] == gs[1];
    fs := [f] + gs[2..];
    var p := [CallNest(kind)] + Script(gs[0]) + [CallDone];
    JoinedHead(p, f, gs[1], gs[2..]);
    assert [gs[1]] + gs[2..] == gs[1..];
    assert p + Joined(gs[1..]) == [CallNest(kind)] + (Script(gs[0]) + [CallDone] + Joined(gs[1..]));
  }

  /** Calls that close d nests more than they open are d + 1 forests and the closes. */
  lemma {:induction false} Brackets(calls: seq<Call>, d: nat) returns (fs: seq<seq<Tree>>)
    requires Depth(calls, d) == 0
    ensures |fs| == d + 1 && calls == Joined(fs)
    decreases |calls|
  {
    if calls == [] {
      return [[]];
    }
    assert calls == [calls[0]] + calls[1..];
    match calls[0]
    case CallAttr(kind, data) =>
      var gs := Brackets(calls[1..], d);
      fs := BracketsAttr(kind, data, gs);
    case CallDone =>
      assert d > 0;
      var gs := Brackets(calls[1..], d - 1);
      fs := BracketsDone(gs);
    case CallNest(kind) =>
      var gs := Brackets(calls[1..], d + 1);
      fs := BracketsNest(kind, gs);
  }

  /** Well-bracketed means nothing but: the script of some forest. */
  lemma WellBracketedIsScript(calls: seq<Call>)
    ensures WellBracketed(calls) <==> exists ts :: calls == Script(ts)
  {
    if WellBracketed(calls) {
      var fs := Brackets(calls, 0);
      assert calls == Script(fs[0]);
    }
    if exists ts :: calls == Script(ts) {
      var ts :| calls == Script(ts);
      ScriptDepth(ts, [], 0);
      assert Script(ts) + [] == Script(ts);
    }
  }

  lemma {:induction false} ScriptDepthOne(t: Tree, more: seq<Call>, d: nat)
    ensures Depth(ScriptOne(t) + more, d) == Depth(more, d)
    decreases t, 0
  {
    match t
    case Leaf(kind, data) =>
      assert (ScriptOne(t) + more)[1..] == more;
    case Nest(kind, kids) =>
      var rest := [CallDone] + more;
      assert (ScriptOne(t) + more)[1..] == Script(kids) + rest;
      ScriptDepth(kids, rest, d + 1);
      assert rest[1..] == more;
  }

  lemma {:induction false} ScriptDepth(ts: seq<Tree>, more: seq<Call>, d: nat)
    ensures Depth(Script(ts) + more, d) == Depth(more, d)
    decreases ts, 1
  {
    if ts == [] {
      assert Script(ts) + more == more;
    } else {
      assert Script(ts) + more == ScriptOne(ts[0]) + (Script(ts[1..]) + more);
      ScriptDepthOne(ts[0], Script(ts[1..]) + more, d);
      ScriptDepth(ts[1..], more, d);
    }
  }

  // ----- what a script writes

  function Height(t: Tree): nat
    decreases t, 0
  {
    match t
    case Leaf(_, _) => 0
    case Nest(_, kids) => 1 + HeightAll(kids)
  }

  function HeightAll(ts: seq<Tree>): nat
    decreases ts
  {
    if ts == [] then 0
    else if Height(ts[0]) >= HeightAll(ts[1..]) then Height(ts[0]) else HeightAll(ts[1..])
  }

  predicate Kinds(t: Tree)
    decreases t, 0
  {
    t.kind < 0x1_0000 && (t.Nest? ==> KindsAll(t.kids))
  }

  predicate KindsAll(ts: seq<Tree>)
    decreases ts
  {
    ts == [] || (Kinds(ts[0]) && KindsAll(ts[1..]))
  }

  /** A message as the calls leave it: whole words, and open nests behind pos. */
  predicate Sound(m: Msg) {
    && |m.buf| < 0x1_0000 && |m.buf| % 4 == 0
    && m.pos <= |m.buf| && m.pos % 4 == 0 && |m.open| <= NESTED
    && forall i :: 0 <= i < |m.open| ==> m.open[i] + HDR <= m.pos
  }

  predicate Room(m: Msg, ts: seq<Tree>) {
    m.pos + SizeAll(ts) <= |m.buf| && |m.open| + HeightAll(ts) <= NESTED
  }

  /** m' is m with the forest written at its position and nothing else changed. */
  predicate Wrote(m: Msg, m': Msg, ts: seq<Tree>) {
    && m'.pos == m.pos + SizeAll(ts) && m'.open == m.open && |m'.buf| == |m.buf|
    && (forall i :: 0 <= i < |m.buf| && !(m.pos <= i < m'.pos) ==> m'.buf[i] == m.buf[i])
    && Spells(m'.buf, m.pos, m'.pos, ts)
  }

  lemma RunsConcat(m: Msg, x: seq<Call>, y: seq<Call>)
    ensures Runs(m, x + y) <==> Runs(m, x) && Runs(Run(m, x), y)
    ensures Runs(m, x + y) ==> Run(m, x + y) == Run(Run(m, x), y)
    decreases |x|
  {
    if x == [] {
      assert x + y == y;
    } else {
      assert (x + y)[1..] == x[1..] + y;
      if Allowed(m, x[0]) { RunsConcat(Do(m, x[0]), x[1..], y); }
    }
  }

  lemma RunsOne(m: Msg, c: Call)
    ensures Runs(m, [c]) <==> Allowed(m, c)
    ensures Runs(m, [c]) ==> Run(m, [c]) == Do(m, c)
  {
    assert [c][1..] == [];
  }

  lemma LeafWritten(m: Msg, kind: nat, data: Bytes)
    requires |m.buf| < 0x1_0000 && kind < 0x1_0000 && m.pos + Size(Leaf(kind, data)) <= |m.buf|
    ensures Wrote(m, AddAttr(m, kind, data), [Leaf(kind, data)])
  {
    var b := AddAttr(m, kind, data).buf;
    assert [Leaf(kind, data)][1..] == [];
    assert b[m.pos] == Put16(m.buf, m.pos, HDR + |data|)[m.pos];
    assert b[m.pos + 1] == Put16(m.buf, m.pos, HDR + |data|)[m.pos + 1];
    assert Word16(b, m.pos) == HDR + |data| && Word16(b, m.pos + 2) == kind;
    assert SpellsOne(b, m.pos, Leaf(kind, data));
  }

  lemma WroteConcat(m: Msg, m1: Msg, m2: Msg, ts: seq<Tree>, us: seq<Tree>)
    requires Wrote(m, m1, ts) && Wrote(m1, m2, us)
    ensures Wrote(m, m2, ts + us)
  {
    SpellsMoved(m1.buf, m2.buf, m.pos, m1.pos, ts, 0);
    SpellsAppend(m2.buf, m.pos, m1.pos, m2.pos, ts, us);
    SizeAppend(ts, us);
  }

  lemma NestKids(b: Bytes, nest: nat, v: nat, hi: nat, kids: seq<Tree>)
    requires nest + HDR <= hi <= |b| && Spells(b, nest + HDR, hi, kids)
    ensures Spells(Put16(b, nest, v), nest + HDR, hi, kids)
  {
    SpellsMoved(b, Put16(b, nest, v), nest + HDR, hi, kids, 0);
  }

  lemma NestSpelled(b: Bytes, nest: nat, kind: nat, kids: seq<Tree>)
    requires nest + HDR + SizeAll(kids) <= |b|
    requires Word16(b, nest) == HDR + SizeAll(kids) && Word16(b, nest + 2) == kind
    requires Spells(b, nest + HDR, nest + HDR + SizeAll(kids), kids)
    ensures Spells(b, nest, nest + HDR + SizeAll(kids), [Nest(kind, kids)])
    ensures SizeAll([Nest(kind, kids)]) == HDR + SizeAll(kids)
  {
    assert SpellsOne(b, nest, Nest(kind, kids));
    assert [Nest(kind, kids)][1..] == [];
  }

  lemma OpenedHeader(m: Msg, m1: Msg, kind: nat, kids: seq<Tree>)
    requires Sound(m) && NestFits(m) && kind < 0x1_0000
    requires Wrote(OpenNest(m, kind), m1, kids) && m1.pos <= |m.buf|
    ensures CanClose(m1) && CloseNest(m1) == Msg(Put16(m1.buf, m.pos, m1.pos - m.pos), m1.pos, m.open)
    ensures Word16(CloseNest(m1).buf, m.pos) == m1.pos - m.pos && Word16(CloseNest(m1).buf, m.pos + 2) == kind
  {
    var o := OpenNest(m, kind);
    assert m1.open == m.open + [m.pos];
    assert m1.open[..|m1.open| - 1] == m.open;
    assert Word16(o.buf, m.pos + 2) == kind;
    assert m1.buf[m.pos + 2] == o.buf[m.pos + 2] && m1.buf[m.pos + 3] == o.buf[m.pos + 3];
  }

  /** Closing a nest patches the one length field that covers its children. */
  lemma NestWritten(m: Msg, m1: Msg, kind: nat, kids: seq<Tree>)
    requires Sound(m) && NestFits(m) && kind < 0x1_0000
    requires Wrote(OpenNest(m, kind), m1, kids) && m1.pos <= |m.buf|
    ensures CanClose(m1) && Wrote(m, CloseNest(m1), [Nest(kind, kids)])
  {
    OpenedHeader(m, m1, kind, kids);
    NestKids(m1.buf, m.pos, m1.pos - m.pos, m1.pos, kids);
    NestSpelled(CloseNest(m1).buf, m.pos, kind, kids);
  }

  lemma OneTree(t: Tree)
    ensures SizeAll([t]) == Size(t) && HeightAll([t]) == Height(t)
  {
    assert [t][1..] == [];
  }

  /** Aligning cannot pass an aligned end. */
  lemma AlignFits(p: nat, n: nat, end: nat)
    requires p % 4 == 0 && end % 4 == 0
    ensures p + n <= end <==> p + Align4(n) <= end
    ensures (p + Align4(n)) % 4 == 0
  {
    var a, b, k := p / 4, end / 4, Align4(n) / 4;
    assert p == 4 * a && end == 4 * b && Align4(n) == 4 * k;
    assert p + Align4(n) == 4 * (a + k);
  }

  lemma LeafKeepsSound(m: Msg, kind: nat, data: Bytes)
    requires Sound(m)
    ensures AttrFits(m, data) <==> m.pos + Size(Leaf(kind, data)) <= |m.buf|
    ensures AttrFits(m, data) ==> Sound(AddAttr(m, kind, data))
  {
    AlignFits(m.pos, HDR + |data|, |m.buf|);
  }

  lemma LeafScriptWrites(m: Msg, kind: nat, data: Bytes)
    requires Sound(m) && kind < 0x1_0000
    ensures
      var calls, size := [CallAttr(kind, data)], Size(Leaf(kind, data));
      && (Runs(m, calls) <==> m.pos + size <= |m.buf|)
      && (Runs(m, calls) ==> Wrote(m, Run(m, calls), [Leaf(kind, data)]) && Sound(Run(m, calls)))
  {
    RunsOne(m, CallAttr(kind, data));
    LeafKeepsSound(m, kind, data);
    if AttrFits(m, data) {
      LeafWritten(m, kind, data);
    }
  }

  lemma {:induction false} ScriptWritesOne(m: Msg, t: Tree)
    requires Sound(m) && Kinds(t)
    ensures Runs(m, ScriptOne(t)) <==> Room(m, [t])
    ensures Runs(m, ScriptOne(t)) ==> Wrote(m, Run(m, ScriptOne(t)), [t]) && Sound(Run(m, ScriptOne(t)))
    decreases t, 0
  {
    OneTree(t);
    match t
    case Leaf(kind, data) =>
      LeafScriptWrites(m, kind, data);
    case Nest(kind, kids) =>
      var tail := Script(kids) + [CallDone];
      assert ScriptOne(t) == [CallNest(kind)] + tail;
      assert ScriptOne(t)[0] == CallNest(kind) && ScriptOne(t)[1..] == tail;
      if NestFits(m) {
        NestScriptWrites(m, kind, kids);
      }
  }

  lemma {:induction false} NestScriptWrites(m: Msg, kind: nat, kids: seq<Tree>)
    requires Sound(m) && kind < 0x1_0000 && KindsAll(kids) && NestFits(m)
    ensures
      var o, tail := OpenNest(m, kind), Script(kids) + [CallDone];
      && (Runs(o, tail) <==> Room(o, kids))
      && (Runs(o, tail) ==> Wrote(m, Run(o, tail), [Nest(kind, kids)]) && Sound(Run(o, tail)))
    decreases kids, 2
  {
    var o := OpenNest(m, kind);
    ScriptWrites(o, kids);
    RunsConcat(o, Script(kids), [CallDone]);
    if Runs(o, Script(kids)) {
      var m1 := Run(o, Script(kids));
      RunsOne(m1, CallDone);
      NestWritten(m, m1, kind, kids);
    }
  }

  /** The script of a forest stays inside the buffer and the nesting array exactly
      when there is room for the forest, and then it writes a serialisation of it. */
  lemma {:induction false} ScriptWrites(m: Msg, ts: seq<Tree>)
    requires Sound(m) && KindsAll(ts)
    ensures Runs(m, Script(ts)) <==> Room(m, ts)
    ensures Runs(m, Script(ts)) ==> Wrote(m, Run(m, Script(ts)), ts) && Sound(Run(m, Script(ts)))
    decreases ts, 1
  {
    if ts != [] {
      ScriptWritesOne(m, ts[0]);
      OneTree(ts[0]);
      RunsConcat(m, ScriptOne(ts[0]), Script(ts[1..]));
      if Runs(m, ScriptOne(ts[0])) {
        var m1 := Run(m, ScriptOne(ts[0]));
        ScriptWrites(m1, ts[1..]);
        if Runs(m1, Script(ts[1..])) {
          WroteConcat(m, m1, Run(m1, Script(ts[1..])), [ts[0]], ts[1..]);
          assert [ts[0]] + ts[1..] == ts;
        }
      }
    }
  }

  /** Build with any well-bracketed calls, then walk: the tree comes back. */
  lemma BuildThenRead(m: Msg, calls: seq<Call>) returns (ts: seq<Tree>)
    requires Sound(m) && WellBracketed(calls) && Runs(m, calls)
    requires forall c :: c in calls && !c.CallDone? ==> c.kind < 0x1_0000
    ensures calls == Script(ts)
    ensures Run(m, calls).open == m.open && Run(m, calls).pos <= |Run(m, calls).buf|
    ensures Read(Run(m, calls).buf, m.pos, Run(m, calls).pos, ShapesOf(ts)) == Some(ts)
  {
    WellBracketedIsScript(calls);
    ts :| calls == Script(ts);
    ScriptKinds(ts);
    ScriptWrites(m, ts);
    RoundTrip(Run(m, calls).buf, m.pos, Run(m, calls).pos, ts);
  }

  lemma {:induction false} ScriptKinds(ts: seq<Tree>)
    requires forall c :: c in Script(ts) && !c.CallDone? ==> c.kind < 0x1_0000
    ensures KindsAll(ts)
    decreases ts
  {
    if ts != [] {
      forall c | c in ScriptOne(ts[0]) && !c.CallDone? ensures c.kind < 0x1_0000 { assert c in Script(ts); }
      forall c | c in Script(ts[1..]) && !c.CallDone? ensures c.kind < 0x1_0000 { assert c in Script(ts); }
      ScriptKinds(ts[1..]);
      assert ScriptOne(ts[0])[0] in ScriptOne(ts[0]);
      if ts[0].Nest? {
        forall c | c in Script(ts[0].kids) && !c.CallDone? ensures c.kind < 0x1_0000 { assert c in ScriptOne(ts[0]); }
        ScriptKinds(ts[0].kids);
      }
    }
  }
}
