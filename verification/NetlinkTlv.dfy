/** Netlink attributes: a 16-bit length that covers header and payload, a 16-bit
    type, the payload, and padding to a multiple of four bytes.  Host order is
    little-endian, as on x86.  Attributes are located by offsets into one buffer. */
module NetlinkTlv {
  import opened Prelude
  import opened Octets

  const HDR: nat := 4

  function Align4(n: nat): (r: nat)
    ensures n <= r < n + 4 && r % 4 == 0
  {
    (n + 3) / 4 * 4
  }

  // ----- the attribute walk

  /** An attribute found by a walk: its payload is b[lo..hi]. */
  datatype Span = Span(kind: nat, lo: nat, hi: nat)

  /** rest is where the walk stopped. */
  datatype Walked = Walked(attrs: seq<Span>, rest: nat)

  /** NLA_OK for the attribute at lo with hi - lo bytes remaining. */
  predicate Ok(b: Bytes, lo: nat, hi: nat)
    requires hi <= |b|
  {
    lo + HDR <= hi && HDR <= Word16(b, lo) <= hi - lo
  }

  /** NLA_NEXT; the last attribute may lack its padding. */
  function Following(b: Bytes, lo: nat, hi: nat): (next: nat)
    requires hi <= |b| && Ok(b, lo, hi)
    ensures lo < next <= hi
  {
    if lo + Align4(Word16(b, lo)) <= hi then lo + Align4(Word16(b, lo)) else hi
  }

  function Walk(b: Bytes, lo: nat, hi: nat): Walked
    requires hi <= |b|
    decreases hi - lo
  {
    if !Ok(b, lo, hi) then Walked([], lo)
    else
      var w := Walk(b, Following(b, lo, hi), hi);
      Walked([Span(Word16(b, lo + 2), lo + HDR, lo + Word16(b, lo))] + w.attrs, w.rest)
  }

  // ----- trees of attributes

  datatype Tree = Leaf(kind: nat, data: Bytes) | Nest(kind: nat, kids: seq<Tree>)

  function Size(t: Tree): (n: nat)
    ensures n >= HDR && n % 4 == 0
  {
    match t
    case Leaf(_, data) => Align4(HDR + |data|)
    case Nest(_, kids) => HDR + SizeAll(kids)
  }

  function SizeAll(ts: seq<Tree>): (n: nat)
    ensures n % 4 == 0
  {
    if ts == [] then 0 else Size(ts[0]) + SizeAll(ts[1..])
  }

  /** The value of an attribute's length field. */
  function Length(t: Tree): nat {
    match t
    case Leaf(_, data) => HDR + |data|
    case Nest(_, kids) => HDR + SizeAll(kids)
  }

  /** The bytes from lo on serialise t, whatever the padding bytes are. */
  predicate SpellsOne(b: Bytes, lo: nat, t: Tree)
    decreases t, 0
  {
    && lo + Size(t) <= |b|
    && Word16(b, lo) == Length(t) && Word16(b, lo + 2) == t.kind
    && match t
       case Leaf(_, data) => forall i :: 0 <= i < |data| ==> b[lo + HDR + i] == data[i]
       case Nest(_, kids) => Spells(b, lo + HDR, lo + Size(t), kids)
  }

  predicate Spells(b: Bytes, lo: nat, hi: nat, ts: seq<Tree>)
    decreases ts
  {
    && hi <= |b|
    && if ts == [] then lo == hi
       else lo + Size(ts[0]) <= hi && SpellsOne(b, lo, ts[0]) && Spells(b, lo + Size(ts[0]), hi, ts[1..])
  }

  /** Which attributes a reader takes for nests. */
  datatype Shape = Plain | Nested(kids: seq<Shape>)

  function ShapeOf(t: Tree): Shape {
    match t
    case Leaf(_, _) => Plain
    case Nest(_, kids) => Nested(ShapesOf(kids))
  }

  function ShapesOf(ts: seq<Tree>): (r: seq<Shape>)
    ensures |r| == |ts|
  {
    if ts == [] then [] else [ShapeOf(ts[0])] + ShapesOf(ts[1..])
  }

  predicate Within(b: Bytes, a: Span) { a.lo <= a.hi <= |b| }

  /** Reading back: walk, and walk again inside every attribute that is a nest. */
  function ReadOne(b: Bytes, a: Span, shape: Shape): Option<Tree>
    decreases shape, 1
  {
    if !Within(b, a) then None
    else match shape
         case Plain => Some(Leaf(a.kind, b[a.lo..a.hi]))
         case Nested(kids) =>
           var w := Walk(b, a.lo, a.hi);
           if w.rest != a.hi then None
           else match ReadAll(b, w.attrs, kids)
                case Some(ts) => Some(Nest(a.kind, ts))
                case None => None
  }

  function ReadAll(b: Bytes, attrs: seq<Span>, shapes: seq<Shape>): Option<seq<Tree>>
    decreases shapes
  {
    if |attrs| != |shapes| then None
    else if shapes == [] then Some([])
    else match (ReadOne(b, attrs[0], shapes[0]), ReadAll(b, attrs[1..], shapes[1..]))
         case (Some(t), Some(ts)) => Some([t] + ts)
         case _ => None
  }

  function Read(b: Bytes, lo: nat, hi: nat, shapes: seq<Shape>): Option<seq<Tree>>
    requires hi <= |b|
  {
    var w := Walk(b, lo, hi);
    if w.rest != hi then None else ReadAll(b, w.attrs, shapes)
  }

  // ----- round trip

  lemma AlignIs(n: nat, r: nat)
    requires r % 4 == 0 && n <= r < n + 4
    ensures Align4(n) == r
  {
    var a, b := Align4(n) / 4, r / 4;
    assert Align4(n) == 4 * a && r == 4 * b;
  }

  /** A length field tells the size. */
  lemma LengthAligns(t: Tree)
    ensures HDR <= Length(t) <= Size(t) && Align4(Length(t)) == Size(t)
  {
    AlignIs(Length(t), Size(t));
  }

  /** The walk steps over one whole attribute. */
  lemma WalkStep(b: Bytes, lo: nat, hi: nat, t: Tree)
    requires hi <= |b| && lo + Size(t) <= hi && SpellsOne(b, lo, t)
    ensures Ok(b, lo, hi) && Following(b, lo, hi) == lo + Size(t)
    ensures Walk(b, lo, hi).attrs == [Span(t.kind, lo + HDR, lo + Length(t))] + Walk(b, lo + Size(t), hi).attrs
    ensures Walk(b, lo, hi).rest == Walk(b, lo + Size(t), hi).rest
  {
    LengthAligns(t);
    assert Word16(b, lo) == Length(t) && Word16(b, lo + 2) == t.kind;
  }

  /** Any serialisation of a forest, however it was padded, reads back as it. */
  lemma {:induction false} ReadBack(b: Bytes, lo: nat, hi: nat, ts: seq<Tree>)
    requires Spells(b, lo, hi, ts)
    ensures Walk(b, lo, hi).rest == hi
    ensures ReadAll(b, Walk(b, lo, hi).attrs, ShapesOf(ts)) == Some(ts)
    decreases ts, 1
  {
    if ts != [] {
      var t := ts[0];
      WalkStep(b, lo, hi, t);
      ReadBack(b, lo + Size(t), hi, ts[1..]);
      ReadBackOne(b, lo, t);
      ReadCons(b, Span(t.kind, lo + HDR, lo + Length(t)), Walk(b, lo + Size(t), hi).attrs, t, ts[1..]);
      assert [t] + ts[1..] == ts;
    } else {
      assert !Ok(b, lo, hi);
    }
  }

  lemma ReadCons(b: Bytes, a: Span, attrs: seq<Span>, t: Tree, ts: seq<Tree>)
    requires ReadOne(b, a, ShapeOf(t)) == Some(t) && ReadAll(b, attrs, ShapesOf(ts)) == Some(ts)
    ensures ReadAll(b, [a] + attrs, ShapesOf([t] + ts)) == Some([t] + ts)
  {
    assert ([t] + ts)[1..] == ts && ([a] + attrs)[1..] == attrs;
    assert ShapesOf([t] + ts) == [ShapeOf(t)] + ShapesOf(ts);
    assert ([ShapeOf(t)] + ShapesOf(ts))[1..] == ShapesOf(ts);
  }

  lemma {:induction false} ReadBackOne(b: Bytes, lo: nat, t: Tree)
    requires SpellsOne(b, lo, t)
    ensures ReadOne(b, Span(t.kind, lo + HDR, lo + Length(t)), ShapeOf(t)) == Some(t)
    decreases t, 0
  {
    match t
    case Leaf(_, data) =>
      assert b[lo + HDR..lo + HDR + |data|] == data;
    case Nest(_, kids) =>
      ReadBack(b, lo + HDR, lo + Size(t), kids);
  }

  lemma RoundTrip(b: Bytes, lo: nat, hi: nat, ts: seq<Tree>)
    requires Spells(b, lo, hi, ts)
    ensures Read(b, lo, hi, ShapesOf(ts)) == Some(ts)
  {
    ReadBack(b, lo, hi, ts);
  }

  // ----- what a reader accepts

  /** The attribute at lo is t, and its length field says len. */
  predicate LaidOne(b: Bytes, lo: nat, len: nat, t: Tree)
    decreases t, 0
  {
    && HDR <= len && lo + len <= |b| && Word16(b, lo) == len && Word16(b, lo + 2) == t.kind
    && match t
       case Leaf(_, data) => len == HDR + |data| && forall i :: 0 <= i < |data| ==> b[lo + HDR + i] == data[i]
       case Nest(_, kids) => Laid(b, lo + HDR, lo + len, kids)
  }

  /** The forest lies from lo to hi, each attribute followed by its padding but for the
      last one of the forest, and of every nest, whose padding may be cut short by hi. */
  predicate Laid(b: Bytes, lo: nat, hi: nat, ts: seq<Tree>)
    decreases ts
  {
    && hi <= |b|
    && if ts == [] then lo == hi
       else
         && lo + HDR <= hi && lo + Word16(b, lo) <= hi && LaidOne(b, lo, Word16(b, lo), ts[0])
         && var next := lo + Align4(Word16(b, lo));
            if next <= hi then Laid(b, next, hi, ts[1..]) else |ts| == 1
  }

  /** At most three bytes of padding can be missing. */
  lemma {:induction false} LaidSize(b: Bytes, lo: nat, hi: nat, ts: seq<Tree>)
    requires Laid(b, lo, hi, ts)
    ensures SizeAll(ts) - 4 < hi - lo <= SizeAll(ts)
    decreases ts, 1
  {
    if ts != [] {
      LaidSizeOne(b, lo, Word16(b, lo), ts[0]);
      if lo + Align4(Word16(b, lo)) <= hi { LaidSize(b, lo + Align4(Word16(b, lo)), hi, ts[1..]); }
    }
  }

  lemma {:induction false} LaidSizeOne(b: Bytes, lo: nat, len: nat, t: Tree)
    requires LaidOne(b, lo, len, t)
    ensures Align4(len) == Size(t)
    decreases t, 0
  {
    if t.Nest? {
      LaidSize(b, lo + HDR, lo + len, t.kids);
      AlignIs(len, Size(t));
    }
  }

  /** A complete serialisation is one of these. */
  lemma {:induction false} SpellsIsLaid(b: Bytes, lo: nat, hi: nat, ts: seq<Tree>)
    requires Spells(b, lo, hi, ts)
    ensures Laid(b, lo, hi, ts)
    decreases ts, 1
  {
    if ts != [] {
      SpellsOneIsLaid(b, lo, ts[0]);
      SpellsIsLaid(b, lo + Size(ts[0]), hi, ts[1..]);
    }
  }

  lemma {:induction false} SpellsOneIsLaid(b: Bytes, lo: nat, t: Tree)
    requires SpellsOne(b, lo, t)
    ensures LaidOne(b, lo, Length(t), t) && Align4(Length(t)) == Size(t)
    decreases t, 0
  {
    LengthAligns(t);
    if t.Nest? { SpellsIsLaid(b, lo + HDR, lo + Size(t), t.kids); }
  }

  /** The attribute at lo, as a walk reports it. */
  function FirstSpan(b: Bytes, lo: nat): Span
    requires lo + HDR <= |b|
  {
    Span(Word16(b, lo + 2), lo + HDR, lo + Word16(b, lo))
  }

  lemma ReadTakesFirst(b: Bytes, lo: nat, hi: nat, shapes: seq<Shape>)
    requires hi <= |b| && shapes != [] && Read(b, lo, hi, shapes).Some?
    ensures Ok(b, lo, hi) && ReadOne(b, FirstSpan(b, lo), shapes[0]).Some?
    ensures
      var rest := Read(b, Following(b, lo, hi), hi, shapes[1..]);
      rest.Some? && Read(b, lo, hi, shapes) == Some([ReadOne(b, FirstSpan(b, lo), shapes[0]).value] + rest.value)
  {
    var w := Walk(b, lo, hi);
    assert Ok(b, lo, hi);
    assert w.attrs[0] == FirstSpan(b, lo) && w.attrs[1..] == Walk(b, Following(b, lo, hi), hi).attrs;
  }

  /** Whatever the walking reader accepts as a forest lies there... */
  lemma {:induction false} ReadIsLaid(b: Bytes, lo: nat, hi: nat, shapes: seq<Shape>)
    requires lo <= hi <= |b| && Read(b, lo, hi, shapes).Some?
    ensures Laid(b, lo, hi, Read(b, lo, hi, shapes).value) && ShapesOf(Read(b, lo, hi, shapes).value) == shapes
    decreases shapes, 2
  {
    if shapes != [] {
      ReadTakesFirst(b, lo, hi, shapes);
      var t, ts := ReadOne(b, FirstSpan(b, lo), shapes[0]).value, Read(b, Following(b, lo, hi), hi, shapes[1..]).value;
      assert ([t] + ts)[1..] == ts;
      ReadOneIsLaid(b, lo, hi, shapes[0]);
      ReadIsLaid(b, Following(b, lo, hi), hi, shapes[1..]);
      LaidCons(b, lo, hi, t, ts);
    }
  }

  lemma LaidCons(b: Bytes, lo: nat, hi: nat, t: Tree, ts: seq<Tree>)
    requires hi <= |b| && Ok(b, lo, hi) && LaidOne(b, lo, Word16(b, lo), t) && Laid(b, Following(b, lo, hi), hi, ts)
    ensures Laid(b, lo, hi, [t] + ts)
  {
    assert ([t] + ts)[1..] == ts;
  }

  lemma {:induction false} ReadOneIsLaid(b: Bytes, lo: nat, hi: nat, shape: Shape)
    requires hi <= |b| && Ok(b, lo, hi)
    requires ReadOne(b, FirstSpan(b, lo), shape).Some?
    ensures
      var t := ReadOne(b, FirstSpan(b, lo), shape).value;
      LaidOne(b, lo, Word16(b, lo), t) && ShapeOf(t) == shape
    decreases shape, 1
  {
    if shape.Nested? { ReadIsLaid(b, lo + HDR, lo + Word16(b, lo), shape.kids); }
  }

  /** ...and whatever lies there it reads. */
  lemma {:induction false} LaidIsRead(b: Bytes, lo: nat, hi: nat, ts: seq<Tree>)
    requires Laid(b, lo, hi, ts)
    ensures Read(b, lo, hi, ShapesOf(ts)) == Some(ts)
    decreases ts, 1
  {
    if ts == [] {
      assert !Ok(b, lo, hi);
    } else {
      var next := Following(b, lo, hi);
      LaidOneIsRead(b, lo, ts[0]);
      if lo + Align4(Word16(b, lo)) > hi { assert ts[1..] == []; }
      LaidIsRead(b, next, hi, ts[1..]);
      ReadCons(b, Span(ts[0].kind, lo + HDR, lo + Word16(b, lo)), Walk(b, next, hi).attrs, ts[0], ts[1..]);
      assert [ts[0]] + ts[1..] == ts;
    }
  }

  lemma {:induction false} LaidOneIsRead(b: Bytes, lo: nat, t: Tree)
    requires lo + HDR <= |b| && LaidOne(b, lo, Word16(b, lo), t)
    ensures ReadOne(b, Span(t.kind, lo + HDR, lo + Word16(b, lo)), ShapeOf(t)) == Some(t)
    decreases t, 0
  {
    match t
    case Leaf(_, data) =>
      assert b[lo + HDR..lo + Word16(b, lo)] == data;
    case Nest(_, kids) =>
      LaidIsRead(b, lo + HDR, lo + Word16(b, lo), kids);
  }

  /** The reader accepts exactly the bytes on which a forest of those shapes lies, and
      returns that forest. */
  lemma ReadIffLaid(b: Bytes, lo: nat, hi: nat, shapes: seq<Shape>, ts: seq<Tree>)
    requires lo <= hi <= |b|
    ensures Read(b, lo, hi, shapes) == Some(ts) <==> ShapesOf(ts) == shapes && Laid(b, lo, hi, ts)
  {
    if Read(b, lo, hi, shapes) == Some(ts) { ReadIsLaid(b, lo, hi, shapes); }
    if ShapesOf(ts) == shapes && Laid(b, lo, hi, ts) { LaidIsRead(b, lo, hi, ts); }
  }

  // ----- moving and joining serialisations

  /** b' holds, d bytes further on, what b holds between lo and hi. */
  predicate Same(b: Bytes, b': Bytes, lo: nat, hi: nat, d: int) {
    && lo <= hi <= |b| && 0 <= lo + d && hi + d <= |b'|
    && forall i :: lo <= i < hi ==> b'[i + d] == b[i]
  }

  lemma {:induction false} SpellsOneMoved(b: Bytes, b': Bytes, lo: nat, t: Tree, d: int)
    requires SpellsOne(b, lo, t) && Same(b, b', lo, lo + Size(t), d)
    ensures SpellsOne(b', lo + d, t)
    decreases t, 0
  {
    assert b'[lo + d] == b[lo] && b'[lo + 1 + d] == b[lo + 1];
    assert b'[lo + 2 + d] == b[lo + 2] && b'[lo + 3 + d] == b[lo + 3];
    match t
    case Leaf(_, data) =>
      forall i | 0 <= i < |data| ensures b'[lo + d + HDR + i] == data[i] {
        assert b'[(lo + HDR + i) + d] == b[lo + HDR + i];
      }
    case Nest(_, kids) =>
      SpellsMoved(b, b', lo + HDR, lo + Size(t), kids, d);
  }

  lemma {:induction false} SpellsMoved(b: Bytes, b': Bytes, lo: nat, hi: nat, ts: seq<Tree>, d: int)
    requires Spells(b, lo, hi, ts) && Same(b, b', lo, hi, d)
    ensures Spells(b', lo + d, hi + d, ts)
    decreases ts, 1
  {
    if ts != [] {
      SpellsOneMoved(b, b', lo, ts[0], d);
      SpellsMoved(b, b', lo + Size(ts[0]), hi, ts[1..], d);
    }
  }

  lemma {:induction false} SpellsAppend(b: Bytes, lo: nat, mid: nat, hi: nat, ts: seq<Tree>, us: seq<Tree>)
    requires Spells(b, lo, mid, ts) && Spells(b, mid, hi, us)
    ensures Spells(b, lo, hi, ts + us)
    decreases |ts|
  {
    if ts == [] {
      assert ts + us == us;
    } else {
      SpellsAppend(b, lo + Size(ts[0]), mid, hi, ts[1..], us);
      SpellsSize(b, mid, hi, us);
      SpellsSize(b, lo + Size(ts[0]), mid, ts[1..]);
      assert (ts + us)[0] == ts[0] && (ts + us)[1..] == ts[1..] + us;
    }
  }

  lemma {:induction false} SpellsSize(b: Bytes, lo: nat, hi: nat, ts: seq<Tree>)
    requires Spells(b, lo, hi, ts)
    ensures hi == lo + SizeAll(ts)
    decreases |ts|
  {
    if ts != [] { SpellsSize(b, lo + Size(ts[0]), hi, ts[1..]); }
  }

  lemma {:induction false} SizeAppend(ts: seq<Tree>, us: seq<Tree>)
    ensures SizeAll(ts + us) == SizeAll(ts) + SizeAll(us)
    decreases |ts|
  {
    if ts == [] {
      assert ts + us == us;
    } else {
      assert (ts + us)[0] == ts[0] && (ts + us)[1..] == ts[1..] + us;
      SizeAppend(ts[1..], us);
    }
  }
}
