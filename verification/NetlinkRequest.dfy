/** The pointer builders: attributes are appended behind the length in the message
    header, and a nest is closed through the pointer its opening returned.  The
    libbpf variants return an error where the others leave the program. */
module NetlinkRequest {
  import opened Prelude
  import opened Octets
  import opened NetlinkTlv
  import opened NetlinkStack
  import opened NetlinkScript

  /** nlmsg_len */
  function Len(b: Bytes): (n: nat)
    requires |b| >= 4
    ensures n == b[0] as nat + 256 * b[1] as nat + 65536 * b[2] as nat + 16777216 * b[3] as nat
  {
    Word16(b, 0) + 0x1_0000 * Word16(b, 2)
  }

  function PutLen(b: Bytes, v: nat): (r: Bytes)
    requires |b| >= 4 && v < 0x1_0000
    ensures |r| == |b| && Len(r) == v
    ensures forall j :: 4 <= j < |b| ==> r[j] == b[j]
  {
    Put16(Put16(b, 0, v), 2, 0)
  }

  /** req_tail */
  function Tail(b: Bytes): nat
    requires |b| >= 4
  {
    Align4(Len(b))
  }

  /** 2^31 */
  const SIGNED: nat := 0x8000_0000

  /** What the message would measure, as nlattr_add computes it on 32 bits. */
  function NewLength(b: Bytes, len: int): (n: nat)
    requires |b| >= 4 && Len(b) < SIGNED && 0 - SIGNED <= len < SIGNED - 8
    ensures len >= 0 ==> n == Tail(b) + Align4(HDR + len)
    ensures n < WORD
  {
    (Tail(b) + (HDR + len + 3) / 4 * 4) % WORD
  }

  /** It is the aligned end plus the aligned size, modulo 2^32, for every int. */
  lemma NewLengthIsAligned(b: Bytes, len: int)
    requires |b| >= 4 && Len(b) < SIGNED && 0 - SIGNED <= len < SIGNED - 8
    ensures NewLength(b, len) % 4 == 0 && (NewLength(b, len) - Tail(b) - 4 - len) % 0x1_0000_0000 < 4
  {
    var size := (HDR + len + 3) / 4 * 4;
    var k := (Tail(b) + size) / WORD;
    assert NewLength(b, len) == Tail(b) + size - WORD * k;
    assert 0 <= size - 4 - len < 4;
  }

  predicate Usable(b: Bytes) { MSGHDR <= |b| < 0x1_0000 && MSGHDR <= Len(b) < SIGNED }

  /** The request without its length word, which pos stands for. */
  function Model(b: Bytes): Msg
    requires |b| >= 4
  {
    Msg(PutLen(b, 0), Tail(b), [])
  }

  predicate Fits(m: Msg, limit: nat, data: Bytes) {
    m.pos + Align4(HDR + |data|) <= limit
  }

  lemma LenCopyCommute(b: Bytes, i: nat, data: Bytes, n: nat)
    requires 4 <= i && i + |data| <= |b| && n < 0x1_0000
    ensures PutLen(Copy(b, i, data), n) == Copy(PutLen(b, n), i, data)
  {
    var x, y := PutLen(Copy(b, i, data), n), Copy(PutLen(b, n), i, data);
    forall j | 0 <= j < |b| ensures x[j] == y[j] {
      if j >= 4 {
        assert PutLen(b, n)[j] == b[j];
      }
    }
  }

  lemma LenLen(b: Bytes, n: nat, k: nat)
    requires |b| >= 4 && n < 0x1_0000 && k < 0x1_0000
    ensures PutLen(PutLen(b, n), k) == PutLen(b, k)
  {
  }

  lemma WriteBody(b: Bytes, t: nat, len: nat, kind: nat, data: Bytes)
    requires 4 <= t && t + HDR + |data| <= |b|
    ensures
      PutLen(Copy(Put16(Put16(b, t, len), t + 2, kind), t + HDR, data), 0)
      == Copy(Put16(Put16(PutLen(b, 0), t, len), t + 2, kind), t + HDR, data)
  {
    var b1 := Put16(b, t, len);
    var b2 := Put16(b1, t + 2, kind);
    LenCopyCommute(b2, t + HDR, data, 0);
  }

  lemma WholeWordTail(b: Bytes, t: nat, k: nat, n: nat)
    requires |b| >= 4 && n < 0x1_0000 && t % 4 == 0 && n == t + Align4(k)
    ensures |PutLen(b, n)| == |b| && Len(PutLen(b, n)) == n && Tail(PutLen(b, n)) == n
    ensures Model(PutLen(b, n)) == Msg(PutLen(b, 0), n, [])
  {
    AlignedTwice(t, Align4(k));
    LenLen(b, n, 0);
  }

  /** The four stores of an append, as one attribute added to the model. */
  lemma WriteIsAdd(b: Bytes, t: nat, n: nat, kind: nat, data: Bytes)
    requires Usable(b) && t == Tail(b) && n == t + Align4(HDR + |data|) <= |b|
    ensures
      var r := PutLen(Copy(Put16(Put16(b, t, HDR + |data|), t + 2, kind), t + HDR, data), n);
      |r| == |b| && Len(r) == n && Tail(r) == n && Model(r) == AddAttr(Model(b), kind, data)
  {
    var body := Copy(Put16(Put16(b, t, HDR + |data|), t + 2, kind), t + HDR, data);
    WholeWordTail(body, t, HDR + |data|, n);
    WriteBody(b, t, HDR + |data|, kind, data);
    AddAttrAt(Model(b), t, n, kind, data);
  }

  lemma AddAttrAt(m: Msg, t: nat, n: nat, kind: nat, data: Bytes)
    requires AttrFits(m, data) && m.pos == t && n == t + Align4(HDR + |data|)
    ensures AddAttr(m, kind, data)
      == Msg(Copy(Put16(Put16(m.buf, t, HDR + |data|), t + 2, kind), t + HDR, data), n, m.open)
  {
  }

  lemma AlignedTwice(x: nat, y: nat)
    requires x % 4 == 0 && y % 4 == 0
    ensures Align4(x + y) == x + y
  {
  }

  function CloseAt(m: Msg, nest: nat): Msg
    requires nest + 2 <= |m.buf| && nest <= m.pos
  {
    m.(buf := Put16(m.buf, nest, m.pos - nest))
  }

  /** type | NLA_F_NESTED on 16 bits. */
  function Flagged(kind: nat): nat { kind % 0x8000 + 0x8000 }

  /** On 16 bits: bit 15 is set, the others are the kind's, and twice is once. */
  lemma FlaggedIsOr(kind: nat)
    ensures 0x8000 <= Flagged(kind) < 0x1_0000 && Flagged(kind) % 0x8000 == kind % 0x8000
    ensures kind < 0x8000 ==> Flagged(kind) == kind + 0x8000
    ensures Flagged(Flagged(kind)) == Flagged(kind)
  {
  }

  // ----- the calls

  datatype Status = Done | EMSGSIZE | EINVAL

  class Request {
    const buf: array<byte>

    constructor (b: array<byte>)
      ensures buf == b
    {
      buf := b;
    }

    method Length() returns (n: nat)
      requires buf.Length >= 4
      ensures n == Len(buf[..])
    {
      n := buf[0] as nat + 256 * buf[1] as nat + 0x1_0000 * (buf[2] as nat + 256 * buf[3] as nat);
    }

    method Write(kind: nat, data: Bytes)
      requires Usable(buf[..]) && Fits(Model(buf[..]), buf.Length, data)
      modifies buf
      ensures Usable(buf[..]) && Model(buf[..]) == AddAttr(old(Model(buf[..])), kind, data)
      ensures Len(buf[..]) == Tail(buf[..])
    {
      var len := Length();
      var t, n := Align4(len), Align4(len) + Align4(HDR + |data|);
      WriteIsAdd(buf[..], t, n, kind, data);
      Store16(buf, t, HDR + |data|);
      Store16(buf, t + 2, kind);
      Memcpy(buf, t + HDR, data);
      Store16(buf, 0, n);
      Store16(buf, 2, 0);
    }

    /** addattr_l: false is the exit on overflow. */
    method AddattrL(maxlen: nat, kind: nat, data: Bytes) returns (ok: bool)
      requires Usable(buf[..]) && maxlen <= buf.Length
      modifies buf
      ensures Usable(buf[..]) && ok == old(Fits(Model(buf[..]), maxlen, data))
      ensures if ok then Model(buf[..]) == AddAttr(old(Model(buf[..])), kind, data) && Len(buf[..]) == Tail(buf[..])
              else buf[..] == old(buf[..])
    {
      var len := Length();
      ok := Align4(len) + Align4(HDR + |data|) <= maxlen;
      if ok {
        Write(kind, data);
      }
    }

    /** addattr_nest */
    method AddattrNest(maxlen: nat, kind: nat) returns (ok: bool, nest: nat)
      requires Usable(buf[..]) && maxlen <= buf.Length
      modifies buf
      ensures Usable(buf[..]) && ok == old(Fits(Model(buf[..]), maxlen, [])) && nest == old(Tail(buf[..]))
      ensures if ok then Model(buf[..]) == AddAttr(old(Model(buf[..])), kind, []) && Len(buf[..]) == Tail(buf[..])
              else buf[..] == old(buf[..])
    {
      var len := Length();
      nest := Align4(len);
      ok := AddattrL(maxlen, kind, []);
    }

    /** addattr_nest_end measures to nlmsg_len itself, which is a whole number of
        words once an attribute has been added. */
    method AddattrNestEnd(nest: nat)
      requires Usable(buf[..]) && Len(buf[..]) == Tail(buf[..]) && 4 <= nest <= Len(buf[..]) && nest + 2 <= buf.Length
      modifies buf
      ensures Usable(buf[..]) && Len(buf[..]) == Tail(buf[..])
      ensures Model(buf[..]) == CloseAt(old(Model(buf[..])), nest)
    {
      var len := Length();
      Store16(buf, nest, len - nest);
    }

    /** The two checks of nlattr_add.  The first adds an int to an unsigned, so that a
        negative length wraps. */
    method Admits(some: bool, len: int) returns (r: Status)
      requires Usable(buf[..]) && 0 - SIGNED <= len < SIGNED - 8
      ensures r == if NewLength(buf[..], len) > buf.Length then EMSGSIZE
                   else if some != (len != 0) then EINVAL else Done
    {
      var n := Length();
      var newlen := (Align4(n) + (HDR + len + 3) / 4 * 4) % WORD;
      if newlen > buf.Length {
        return EMSGSIZE;
      }
      if some != (len != 0) {
        return EINVAL;
      }
      return Done;
    }

    /** nlattr_add: None stands for a null pointer, whose length may be any number. */
    method NlattrAdd(kind: nat, data: Option<Bytes>, len: int) returns (r: Status)
      requires Usable(buf[..]) && 0 - SIGNED <= len < SIGNED - 8
      requires data.Some? ==> |data.value| == len
      modifies buf
      ensures Usable(buf[..])
      ensures r == if NewLength(old(buf[..]), len) > buf.Length then EMSGSIZE
                   else if data.Some? != (len != 0) then EINVAL else Done
      ensures r != Done ==> buf[..] == old(buf[..])
      ensures r == Done ==> Len(buf[..]) == Tail(buf[..]) <= buf.Length
      ensures r == Done ==> Model(buf[..]) == AddAttr(old(Model(buf[..])), kind, if data.Some? then data.value else [])
    {
      r := Admits(data.Some?, len);
      if r == Done {
        Write(kind, if data.Some? then data.value else []);
      }
    }

    /** nlattr_begin_nested: None is the null pointer after a failed add. */
    method NlattrBeginNested(kind: nat) returns (tail: Option<nat>)
      requires Usable(buf[..])
      modifies buf
      ensures Usable(buf[..])
      ensures tail == if old(Fits(Model(buf[..]), buf.Length, [])) then Some(old(Tail(buf[..]))) else None
      ensures tail.Some? ==> Model(buf[..]) == AddAttr(old(Model(buf[..])), Flagged(kind), [])
      ensures tail.Some? ==>
        && tail.value + 4 <= buf.Length && Word16(buf[..], tail.value + 2) >= 0x8000
        && Word16(buf[..], tail.value + 2) % 0x8000 == kind % 0x8000
      ensures tail.None? ==> buf[..] == old(buf[..])
    {
      var n := Length();
      var r := NlattrAdd(Flagged(kind), None, 0);
      tail := if r == Done then Some(Align4(n)) else None;
    }

    /** nlattr_end_nested */
    method NlattrEndNested(tail: nat)
      requires Usable(buf[..]) && 4 <= tail <= Tail(buf[..]) && tail + 2 <= buf.Length
      modifies buf
      ensures Usable(buf[..]) && Len(buf[..]) == old(Len(buf[..]))
      ensures Model(buf[..]) == CloseAt(old(Model(buf[..])), tail)
    {
      var len := Length();
      Store16(buf, tail, Align4(len) - tail);
    }
  }

  // ----- building a forest

  /** The calls a caller makes for a forest, None when one of them fails; mark is
      set for the variant that flags its nests. */
  function Build(m: Msg, limit: nat, mark: bool, ts: seq<Tree>): (r: Option<Msg>)
    requires limit <= |m.buf|
    ensures r.Some? ==> |r.value.buf| == |m.buf| && r.value.pos >= m.pos
    decreases ts
  {
    if ts == [] then Some(m)
    else match BuildOne(m, limit, mark, ts[0])
         case Some(m') => Build(m', limit, mark, ts[1..])
         case None => None
  }

  function BuildOne(m: Msg, limit: nat, mark: bool, t: Tree): (r: Option<Msg>)
    requires limit <= |m.buf|
    ensures r.Some? ==> |r.value.buf| == |m.buf| && r.value.pos >= m.pos
    decreases t, 0
  {
    match t
    case Leaf(kind, data) => if Fits(m, limit, data) then Some(AddAttr(m, kind, data)) else None
    case Nest(kind, kids) =>
      if !Fits(m, limit, []) then None
      else match Build(AddAttr(m, if mark then Flagged(kind) else kind, []), limit, mark, kids)
           case Some(m') => Some(CloseAt(m', m.pos))
           case None => None
  }

  /** The addattr calls for a forest on a live request; false is the exit. */
  method BuildWithAddattr(req: Request, maxlen: nat, ts: seq<Tree>) returns (ok: bool)
    requires Usable(req.buf[..]) && maxlen <= req.buf.Length
    modifies req.buf
    ensures Usable(req.buf[..])
    ensures ok <==> Build(old(Model(req.buf[..])), maxlen, false, ts).Some?
    ensures ok ==> Model(req.buf[..]) == Build(old(Model(req.buf[..])), maxlen, false, ts).value
    ensures ok && old(Len(req.buf[..]) == Tail(req.buf[..])) ==> Len(req.buf[..]) == Tail(req.buf[..])
    decreases ts
  {
    if ts == [] {
      return true;
    }
    ok := BuildTreeWithAddattr(req, maxlen, ts[0]);
    if ok {
      ok := BuildWithAddattr(req, maxlen, ts[1..]);
    }
  }

  method BuildTreeWithAddattr(req: Request, maxlen: nat, t: Tree) returns (ok: bool)
    requires Usable(req.buf[..]) && maxlen <= req.buf.Length
    modifies req.buf
    ensures Usable(req.buf[..])
    ensures ok <==> BuildOne(old(Model(req.buf[..])), maxlen, false, t).Some?
    ensures ok ==> Model(req.buf[..]) == BuildOne(old(Model(req.buf[..])), maxlen, false, t).value
    ensures ok ==> Len(req.buf[..]) == Tail(req.buf[..])
    decreases t, 0
  {
    match t
    case Leaf(kind, data) =>
      ok := req.AddattrL(maxlen, kind, data);
    case Nest(kind, kids) =>
      var nest;
      ok, nest := req.AddattrNest(maxlen, kind);
      if ok {
        ok := BuildWithAddattr(req, maxlen, kids);
        if ok {
          req.AddattrNestEnd(nest);
        }
      }
  }

  /** The nlattr calls for a forest on a live request, up to the first that fails. */
  method BuildWithNlattr(req: Request, ts: seq<Tree>) returns (ok: bool)
    requires Usable(req.buf[..]) && Short(ts)
    modifies req.buf
    ensures Usable(req.buf[..])
    ensures ok <==> Build(old(Model(req.buf[..])), req.buf.Length, true, ts).Some?
    ensures ok ==> Model(req.buf[..]) == Build(old(Model(req.buf[..])), req.buf.Length, true, ts).value
    decreases ts
  {
    if ts == [] {
      return true;
    }
    ok := BuildTreeWithNlattr(req, ts[0]);
    if ok {
      ok := BuildWithNlattr(req, ts[1..]);
    }
  }

  method BuildTreeWithNlattr(req: Request, t: Tree) returns (ok: bool)
    requires Usable(req.buf[..]) && ShortOne(t)
    modifies req.buf
    ensures Usable(req.buf[..])
    ensures ok <==> BuildOne(old(Model(req.buf[..])), req.buf.Length, true, t).Some?
    ensures ok ==> Model(req.buf[..]) == BuildOne(old(Model(req.buf[..])), req.buf.Length, true, t).value
    decreases t, 0
  {
    match t
    case Leaf(kind, data) =>
      ok := BuildLeafWithNlattr(req, kind, data);
    case Nest(kind, kids) =>
      var tail := req.NlattrBeginNested(kind);
      ok := tail.Some?;
      if ok {
        ok := BuildWithNlattr(req, kids);
        if ok {
          req.NlattrEndNested(tail.value);
        }
      }
  }

  method BuildLeafWithNlattr(req: Request, kind: nat, data: Bytes) returns (ok: bool)
    requires Usable(req.buf[..]) && |data| < SIGNED - 8
    modifies req.buf
    ensures Usable(req.buf[..])
    ensures ok <==> old(Fits(Model(req.buf[..]), req.buf.Length, data))
    ensures ok ==> Model(req.buf[..]) == AddAttr(old(Model(req.buf[..])), kind, data)
  {
    var r := req.NlattrAdd(kind, if data == [] then None else Some(data), |data|);
    ok := r == Done;
  }

  /** Every payload's length is an int that the macros can align. */
  predicate ShortOne(t: Tree)
    decreases t, 0
  {
    match t
    case Leaf(_, data) => |data| < SIGNED - 8
    case Nest(_, kids) => Short(kids)
  }

  predicate Short(ts: seq<Tree>)
    decreases ts
  {
    ts != [] ==> ShortOne(ts[0]) && Short(ts[1..])
  }

  function MarkOne(mark: bool, t: Tree): Tree
    decreases t, 0
  {
    match t
    case Leaf(_, _) => t
    case Nest(kind, kids) => Nest(if mark then Flagged(kind) else kind, Mark(mark, kids))
  }

  function Mark(mark: bool, ts: seq<Tree>): (r: seq<Tree>)
    decreases ts
  {
    if ts == [] then [] else [MarkOne(mark, ts[0])] + Mark(mark, ts[1..])
  }

  lemma {:induction false} MarkSize(mark: bool, ts: seq<Tree>)
    ensures SizeAll(Mark(mark, ts)) == SizeAll(ts)
    decreases ts
  {
    if ts != [] {
      if ts[0].Nest? { MarkSize(mark, ts[0].kids); }
      MarkSize(mark, ts[1..]);
      assert Mark(mark, ts)[1..] == Mark(mark, ts[1..]);
    }
  }

  /** o is m with an empty attribute appended, as far as closing it matters. */
  predicate Opened(m: Msg, o: Msg, kind: nat) {
    && |m.buf| < 0x1_0000 && m.pos + HDR <= |m.buf| == |o.buf| && o.pos == m.pos + HDR && o.open == m.open
    && Word16(o.buf, m.pos + 2) == kind
    && forall i :: 0 <= i < |m.buf| && !(m.pos <= i < m.pos + HDR) ==> o.buf[i] == m.buf[i]
  }

  lemma AddAttrOpens(m: Msg, kind: nat)
    requires |m.buf| < 0x1_0000 && kind < 0x1_0000 && m.pos + HDR <= |m.buf|
    ensures Opened(m, AddAttr(m, kind, []), kind)
  {
  }

  lemma NestHeader(m: Msg, o: Msg, m1: Msg, kind: nat, kids: seq<Tree>)
    requires Opened(m, o, kind) && Wrote(o, m1, kids) && m1.pos <= |m.buf|
    ensures Word16(CloseAt(m1, m.pos).buf, m.pos) == m1.pos - m.pos
    ensures Word16(CloseAt(m1, m.pos).buf, m.pos + 2) == kind
  {
    assert m1.buf[m.pos + 2] == o.buf[m.pos + 2];
    assert m1.buf[m.pos + 3] == o.buf[m.pos + 3];
  }

  lemma NestAssembles(m: Msg, b: Bytes, kind: nat, kids: seq<Tree>)
    requires |b| == |m.buf| && m.pos + HDR + SizeAll(kids) <= |b|
    requires forall i :: 0 <= i < |b| && !(m.pos <= i < m.pos + HDR + SizeAll(kids)) ==> b[i] == m.buf[i]
    requires Word16(b, m.pos) == HDR + SizeAll(kids) && Word16(b, m.pos + 2) == kind
    requires Spells(b, m.pos + HDR, m.pos + HDR + SizeAll(kids), kids)
    ensures Wrote(m, Msg(b, m.pos + HDR + SizeAll(kids), m.open), [Nest(kind, kids)])
  {
    NestSpelled(b, m.pos, kind, kids);
  }

  /** The header of a nest, its children behind it, its length patched last. */
  lemma NestClosed(m: Msg, o: Msg, m1: Msg, kind: nat, kids: seq<Tree>)
    requires Opened(m, o, kind) && Wrote(o, m1, kids) && m1.pos <= |m.buf|
    ensures Wrote(m, CloseAt(m1, m.pos), [Nest(kind, kids)])
  {
    NestHeader(m, o, m1, kind, kids);
    NestKids(m1.buf, m.pos, m1.pos - m.pos, m1.pos, kids);
    NestAssembles(m, CloseAt(m1, m.pos).buf, kind, kids);
  }

  lemma {:induction false} BuildOneWrites(m: Msg, limit: nat, mark: bool, t: Tree)
    requires |m.buf| < 0x1_0000 && limit <= |m.buf| && Kinds(t)
    ensures BuildOne(m, limit, mark, t).Some? <==> m.pos + Size(t) <= limit
    ensures BuildOne(m, limit, mark, t).Some? ==> Wrote(m, BuildOne(m, limit, mark, t).value, [MarkOne(mark, t)])
    decreases t, 0
  {
    match t
    case Leaf(kind, data) =>
      if Fits(m, limit, data) { LeafWritten(m, kind, data); }
    case Nest(kind, kids) =>
      if Fits(m, limit, []) {
        var k := if mark then Flagged(kind) else kind;
        var o := AddAttr(m, k, []);
        AddAttrOpens(m, k);
        BuildWrites(o, limit, mark, kids);
        MarkSize(mark, kids);
        if Build(o, limit, mark, kids).Some? {
          NestClosed(m, o, Build(o, limit, mark, kids).value, k, Mark(mark, kids));
        }
      }
  }

  /** The calls for a forest succeed exactly when it fits behind the message, and
      then they leave a serialisation of it and change nothing else. */
  lemma {:induction false} BuildWrites(m: Msg, limit: nat, mark: bool, ts: seq<Tree>)
    requires |m.buf| < 0x1_0000 && limit <= |m.buf| && KindsAll(ts) && m.pos <= limit
    ensures Build(m, limit, mark, ts).Some? <==> m.pos + SizeAll(ts) <= limit
    ensures Build(m, limit, mark, ts).Some? ==> Wrote(m, Build(m, limit, mark, ts).value, Mark(mark, ts))
    decreases ts, 1
  {
    if ts != [] {
      BuildOneWrites(m, limit, mark, ts[0]);
      MarkOneSize(mark, ts[0]);
      if BuildOne(m, limit, mark, ts[0]).Some? {
        var m1 := BuildOne(m, limit, mark, ts[0]).value;
        BuildWrites(m1, limit, mark, ts[1..]);
        if Build(m1, limit, mark, ts[1..]).Some? {
          WroteConcat(m, m1, Build(m1, limit, mark, ts[1..]).value, [MarkOne(mark, ts[0])], Mark(mark, ts[1..]));
        }
      }
    }
  }

  lemma MarkOneSize(mark: bool, t: Tree)
    ensures SizeAll([MarkOne(mark, t)]) == Size(t)
  {
    OneTree(MarkOne(mark, t));
    if t.Nest? { MarkSize(mark, t.kids); }
  }

  /** Both families of calls build messages that a walk takes apart again. */
  lemma BuiltForestReads(m: Msg, limit: nat, mark: bool, ts: seq<Tree>)
    requires |m.buf| < 0x1_0000 && limit <= |m.buf| && KindsAll(ts) && m.pos + SizeAll(ts) <= limit
    ensures
      var r := Build(m, limit, mark, ts);
      && r.Some? && r.value.pos == m.pos + SizeAll(ts)
      && Read(r.value.buf, m.pos, r.value.pos, ShapesOf(Mark(mark, ts))) == Some(Mark(mark, ts))
  {
    BuildWrites(m, limit, mark, ts);
    MarkSize(mark, ts);
    RoundTrip(Build(m, limit, mark, ts).value.buf, m.pos, m.pos + SizeAll(ts), Mark(mark, ts));
  }
}
