/** The attribute walkers: the NLA_OK/NLA_NEXT loop over a reply buffer, and the
    Python pair attr()/attrs(). */
module NetlinkWalk {
  import opened Prelude
  import opened Octets
  import opened NetlinkTlv

  function FirstOfKind(attrs: seq<Span>, kind: nat): Option<Span> {
    if attrs == [] then None
    else if attrs[0].kind == kind then Some(attrs[0])
    else FirstOfKind(attrs[1..], kind)
  }

  /** The walk up to the first attribute of a kind. */
  function Scan(b: Bytes, lo: nat, hi: nat, kind: nat): Option<Span>
    requires hi <= |b|
    decreases hi - lo
  {
    if !Ok(b, lo, hi) then None
    else if Word16(b, lo + 2) == kind then Some(Span(kind, lo + HDR, lo + Word16(b, lo)))
    else Scan(b, Following(b, lo, hi), hi, kind)
  }

  lemma {:induction false} ScanFollowsWalk(b: Bytes, lo: nat, hi: nat, kind: nat)
    requires hi <= |b|
    ensures Scan(b, lo, hi, kind) == FirstOfKind(Walk(b, lo, hi).attrs, kind)
    decreases hi - lo
  {
    if Ok(b, lo, hi) {
      assert Walk(b, lo, hi).attrs[1..] == Walk(b, Following(b, lo, hi), hi).attrs;
      ScanFollowsWalk(b, Following(b, lo, hi), hi, kind);
    }
  }

  /** Whatever the bytes are, every attribute a walk reports lies inside the
      window, behind the attributes reported before it. */
  lemma {:induction false} WalkStaysInside(b: Bytes, lo: nat, hi: nat)
    requires lo <= hi <= |b|
    ensures lo <= Walk(b, lo, hi).rest <= hi
    ensures forall a :: a in Walk(b, lo, hi).attrs ==> lo + HDR <= a.lo <= a.hi <= hi
    ensures forall i, j :: 0 <= i < j < |Walk(b, lo, hi).attrs| ==>
      Walk(b, lo, hi).attrs[i].hi + HDR <= Walk(b, lo, hi).attrs[j].lo
    decreases hi - lo
  {
    if Ok(b, lo, hi) {
      WalkStaysInside(b, Following(b, lo, hi), hi);
    }
  }

  method Peek16(buf: array<byte>, i: nat) returns (v: nat)
    requires i + 2 <= buf.Length
    ensures v == Word16(buf[..], i)
  {
    v := buf[i] as nat + 256 * buf[i + 1] as nat;
  }

  /** for (a = start; NLA_OK(a, attrlen); a = NLA_NEXT(a, attrlen)): the first
      attribute of a kind.  attrlen is an int and may be or become negative; the
      loop ends on every byte string and reads only inside the window. */
  method FindKind(buf: array<byte>, start: nat, len: int, kind: nat) returns (found: Option<Span>)
    requires start <= buf.Length && start + len <= buf.Length
    ensures len < 0 ==> found == None
    ensures len >= 0 ==> found == FirstOfKind(Walk(buf[..], start, start + len).attrs, kind)
  {
    if len >= 0 {
      ScanFollowsWalk(buf[..], start, start + len, kind);
    }
    ghost var b, hi := buf[..], if len >= 0 then start + len else 0;
    var a, attrlen := start, len;
    while attrlen >= HDR
      invariant a >= start && a + attrlen == start + len
      invariant len >= 0 ==> Scan(b, start, hi, kind) == Scan(b, if a <= hi then a else hi, hi, kind)
      invariant len < 0 ==> attrlen < 0
      decreases attrlen
    {
      var size := Peek16(buf, a);
      if size < HDR || size > attrlen {
        return None;
      }
      var k := Peek16(buf, a + 2);
      if k == kind {
        return Some(Span(k, a + HDR, a + size));
      }
      a, attrlen := a + Align4(size), attrlen - Align4(size);
    }
    return None;
  }

  // ----- attr() and attrs()

  datatype Pair = Pair(kind: nat, value: Bytes)

  /** struct.pack refuses a length or a kind that is not a 16-bit number. */
  function PackAttr(kv: Pair): Option<Bytes> {
    if HDR + |kv.value| >= 0x1_0000 || kv.kind >= 0x1_0000 then None
    else Some(Le16(HDR + |kv.value|) + Le16(kv.kind) + kv.value + Zeros(Align4(HDR + |kv.value|) - HDR - |kv.value|))
  }

  lemma PackAttrSpells(kv: Pair)
    requires PackAttr(kv).Some?
    ensures
      var b := PackAttr(kv).value;
      |b| % 4 == 0 && |b| == Size(Leaf(kv.kind, kv.value)) && SpellsOne(b, 0, Leaf(kv.kind, kv.value))
  {
  }

  function Leaves(kvs: seq<Pair>): (ts: seq<Tree>)
    ensures |ts| == |kvs| && forall i :: 0 <= i < |ts| ==> ts[i] == Leaf(kvs[i].kind, kvs[i].value)
  {
    if kvs == [] then [] else [Leaf(kvs[0].kind, kvs[0].value)] + Leaves(kvs[1..])
  }

  /** attr(k1, v1) + attr(k2, v2) + ..., None if one of them is refused. */
  function PackAll(kvs: seq<Pair>): Option<Bytes> {
    if kvs == [] then Some([])
    else match (PackAttr(kvs[0]), PackAll(kvs[1..]))
         case (Some(a), Some(b)) => Some(a + b)
         case _ => None
  }

  lemma JoinSpells(a: Bytes, t: Tree, b: Bytes, ts: seq<Tree>)
    requires |a| == Size(t) && SpellsOne(a, 0, t) && Spells(b, 0, |b|, ts)
    ensures Spells(a + b, 0, |a + b|, [t] + ts)
  {
    SpellsOneMoved(a, a + b, 0, t, 0);
    SpellsMoved(b, a + b, 0, |b|, ts, |a|);
    assert ([t] + ts)[1..] == ts;
  }

  lemma {:induction false} PackAllSpells(kvs: seq<Pair>)
    requires PackAll(kvs).Some?
    ensures Spells(PackAll(kvs).value, 0, |PackAll(kvs).value|, Leaves(kvs))
  {
    if kvs != [] {
      PackAttrSpells(kvs[0]);
      PackAllSpells(kvs[1..]);
      JoinSpells(PackAttr(kvs[0]).value, Leaf(kvs[0].kind, kvs[0].value), PackAll(kvs[1..]).value, Leaves(kvs[1..]));
    }
  }

  /** What an attribute found in b stands for. */
  function Value(b: Bytes, a: Span): Pair {
    Pair(a.kind, if Within(b, a) then b[a.lo..a.hi] else [])
  }

  function Values(b: Bytes, attrs: seq<Span>): (kvs: seq<Pair>)
    ensures |kvs| == |attrs| && forall i :: 0 <= i < |kvs| ==> kvs[i] == Value(b, attrs[i])
  {
    if attrs == [] then [] else [Value(b, attrs[0])] + Values(b, attrs[1..])
  }

  lemma LeafValue(b: Bytes, lo: nat, kv: Pair)
    requires SpellsOne(b, lo, Leaf(kv.kind, kv.value))
    ensures Value(b, Span(kv.kind, lo + HDR, lo + HDR + |kv.value|)) == kv
  {
    assert b[lo + HDR..lo + HDR + |kv.value|] == kv.value;
  }

  /** The attributes stand for the pairs. */
  predicate StandFor(b: Bytes, attrs: seq<Span>, kvs: seq<Pair>) {
    |attrs| == |kvs| && forall i :: 0 <= i < |kvs| ==> Value(b, attrs[i]) == kvs[i]
  }

  lemma StandForCons(b: Bytes, attrs: seq<Span>, kvs: seq<Pair>)
    requires attrs != [] && kvs != [] && Value(b, attrs[0]) == kvs[0] && StandFor(b, attrs[1..], kvs[1..])
    ensures StandFor(b, attrs, kvs)
  {
    forall i | 0 <= i < |kvs| ensures Value(b, attrs[i]) == kvs[i] {
      if i > 0 { assert Value(b, attrs[1..][i - 1]) == kvs[1..][i - 1]; }
    }
  }

  lemma WalkFindsFirst(b: Bytes, lo: nat, hi: nat, kv: Pair)
    requires hi <= |b| && lo + Size(Leaf(kv.kind, kv.value)) <= hi && SpellsOne(b, lo, Leaf(kv.kind, kv.value))
    ensures
      var w, w1 := Walk(b, lo, hi), Walk(b, lo + Size(Leaf(kv.kind, kv.value)), hi);
      w.rest == w1.rest && w.attrs != [] && Value(b, w.attrs[0]) == kv && w.attrs[1..] == w1.attrs
  {
    WalkStep(b, lo, hi, Leaf(kv.kind, kv.value));
    LeafValue(b, lo, kv);
  }

  lemma {:induction false} WalkOfTrees(b: Bytes, lo: nat, hi: nat, ts: seq<Tree>, kvs: seq<Pair>)
    requires Spells(b, lo, hi, ts) && |ts| == |kvs|
    requires forall i :: 0 <= i < |ts| ==> ts[i] == Leaf(kvs[i].kind, kvs[i].value)
    ensures Walk(b, lo, hi).rest == hi && StandFor(b, Walk(b, lo, hi).attrs, kvs)
    decreases |kvs|
  {
    if kvs == [] {
      assert !Ok(b, lo, hi);
    } else {
      assert ts[0] == Leaf(kvs[0].kind, kvs[0].value);
      WalkFindsFirst(b, lo, hi, kvs[0]);
      WalkOfTrees(b, lo + Size(ts[0]), hi, ts[1..], kvs[1..]);
      StandForCons(b, Walk(b, lo, hi).attrs, kvs);
    }
  }

  /** The walk over a padded concatenation of attributes yields exactly those
      attributes, in order. */
  lemma WalkOfLeaves(b: Bytes, lo: nat, hi: nat, kvs: seq<Pair>)
    requires Spells(b, lo, hi, Leaves(kvs))
    ensures Walk(b, lo, hi).rest == hi && Values(b, Walk(b, lo, hi).attrs) == kvs
  {
    WalkOfTrees(b, lo, hi, Leaves(kvs), kvs);
  }

  type Map = map<nat, Bytes>

  /** m after the pairs, a later one replacing an earlier one with the same
      14-bit kind. */
  function Dict(m: Map, kvs: seq<Pair>): Map
    decreases |kvs|
  {
    if kvs == [] then m else Dict(m[kvs[0].kind % 0x4000 := kvs[0].value], kvs[1..])
  }

  predicate LastOf(kvs: seq<Pair>, i: nat, k: nat)
    requires i < |kvs|
  {
    kvs[i].kind % 0x4000 == k && forall j :: i < j < |kvs| ==> kvs[j].kind % 0x4000 != k
  }

  /** A kind that does not occur keeps the value it had... */
  lemma {:induction false} DictKeeps(m: Map, kvs: seq<Pair>, k: nat)
    requires forall j :: 0 <= j < |kvs| ==> kvs[j].kind % 0x4000 != k
    ensures k in Dict(m, kvs) <==> k in m
    ensures k in m ==> Dict(m, kvs)[k] == m[k]
    decreases |kvs|
  {
    if kvs != [] {
      DictKeeps(m[kvs[0].kind % 0x4000 := kvs[0].value], kvs[1..], k);
    }
  }

  /** ...and one that occurs has the value of its last occurrence. */
  lemma {:induction false} DictIsLastWins(m: Map, kvs: seq<Pair>, i: nat, k: nat)
    requires i < |kvs| && LastOf(kvs, i, k)
    ensures k in Dict(m, kvs) && Dict(m, kvs)[k] == kvs[i].value
    decreases |kvs|
  {
    var m' := m[kvs[0].kind % 0x4000 := kvs[0].value];
    if i == 0 {
      DictKeeps(m', kvs[1..], k);
    } else {
      DictIsLastWins(m', kvs[1..], i - 1, k);
    }
  }

  /** None stands for the failed assertion: the walk got stuck with a whole
      header left. */
  function AttrsOf(b: Bytes): Option<Map> {
    var w := Walk(b, 0, |b|);
    if |b| - w.rest < HDR then Some(Dict(map[], Values(b, w.attrs))) else None
  }

  /** The loop of attrs() from offset at on, with the dictionary built so far. */
  function AttrsFrom(b: Bytes, at: nat, m: Map): Option<Map>
    requires at <= |b|
    decreases |b| - at
  {
    if |b| - at < HDR then Some(m)
    else if !Ok(b, at, |b|) then None
    else AttrsFrom(b, Following(b, at, |b|), m[Word16(b, at + 2) % 0x4000 := b[at + HDR..at + Word16(b, at)]])
  }

  lemma {:induction false} AttrsFollowWalk(b: Bytes, at: nat, m: Map)
    requires at <= |b|
    ensures
      var w := Walk(b, at, |b|);
      AttrsFrom(b, at, m) == if |b| - w.rest < HDR then Some(Dict(m, Values(b, w.attrs))) else None
    decreases |b| - at
  {
    if Ok(b, at, |b|) {
      AttrsFollowWalk(b, Following(b, at, |b|), m[Word16(b, at + 2) % 0x4000 := b[at + HDR..at + Word16(b, at)]]);
      assert Walk(b, at, |b|).attrs[1..] == Walk(b, Following(b, at, |b|), |b|).attrs;
      assert Values(b, Walk(b, at, |b|).attrs)[1..] == Values(b, Walk(b, Following(b, at, |b|), |b|).attrs);
    }
  }

  method Attrs(b: Bytes) returns (r: Option<Map>)
    ensures r == AttrsOf(b)
  {
    AttrsFollowWalk(b, 0, map[]);
    r := RunAttrs(b);
  }

  method RunAttrs(b: Bytes) returns (r: Option<Map>)
    ensures r == AttrsFrom(b, 0, map[])
  {
    var result: Map := map[];
    var at := 0;
    while |b| - at >= HDR
      invariant at <= |b| && AttrsFrom(b, 0, map[]) == AttrsFrom(b, at, result)
    {
      var length := Word16(b, at);
      if !(HDR <= length <= |b| - at) {
        return None;
      }
      result := result[Word16(b, at + 2) % 0x4000 := b[at + HDR..at + length]];
      at := if at + Align4(length) <= |b| then at + Align4(length) else |b|;
    }
    return Some(result);
  }

  /** attrs() undoes any concatenation of attr() outputs, up to the last-wins
      rule on 14-bit kinds. */
  lemma AttrsUndoAttr(kvs: seq<Pair>)
    requires PackAll(kvs).Some?
    ensures AttrsOf(PackAll(kvs).value) == Some(Dict(map[], kvs))
  {
    PackAllSpells(kvs);
    WalkOfLeaves(PackAll(kvs).value, 0, |PackAll(kvs).value|, kvs);
  }
}
