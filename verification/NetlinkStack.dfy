/** The stack builder: a 4096-byte buffer, a write position, and up to eight open
    nests whose length fields are patched when they are closed. */
module NetlinkStack {
  import opened Octets
  import opened NetlinkTlv

  const BUF: nat := 4096
  const NESTED: nat := 8
  const MSGHDR: nat := 16

  /** open holds the offsets of the nests not yet closed, innermost last. */
  datatype Msg = Msg(buf: Bytes, pos: nat, open: seq<nat>)

  predicate AttrFits(m: Msg, data: Bytes) { m.pos + HDR + |data| <= |m.buf| }

  function AddAttr(m: Msg, kind: nat, data: Bytes): Msg
    requires AttrFits(m, data)
  {
    Msg(Copy(Put16(Put16(m.buf, m.pos, HDR + |data|), m.pos + 2, kind), m.pos + HDR, data),
        m.pos + Align4(HDR + |data|), m.open)
  }

  predicate NestFits(m: Msg) { m.pos + HDR <= |m.buf| && |m.open| < NESTED }

  function OpenNest(m: Msg, kind: nat): Msg
    requires NestFits(m)
  {
    Msg(Put16(m.buf, m.pos + 2, kind), m.pos + HDR, m.open + [m.pos])
  }

  predicate CanClose(m: Msg) {
    m.open != [] && m.open[|m.open| - 1] + 2 <= |m.buf| && m.open[|m.open| - 1] <= m.pos
  }

  function CloseNest(m: Msg): Msg
    requires CanClose(m)
  {
    var nest := m.open[|m.open| - 1];
    Msg(Put16(m.buf, nest, m.pos - nest), m.pos, m.open[..|m.open| - 1])
  }

  // ----- the object

  class NlMsg {
    var pos: nat
    var nesting: nat
    const nested: array<nat>
    const buf: array<byte>

    ghost predicate Valid()
      reads this, nested, buf
    {
      && buf.Length == BUF && nested.Length == NESTED && nesting <= NESTED
    }

    ghost function Model(): Msg
      requires Valid()
      reads this, nested, buf
    {
      Msg(buf[..], pos, nested[..nesting])
    }

    constructor ()
      ensures Valid() && fresh(nested) && fresh(buf)
      ensures Model() == Msg(seq(4096, _ => 0), 0, [])
    {
      nested := new nat[NESTED](_ => 0);
      buf := new byte[BUF](_ => 0);
      pos, nesting := 0, 0;
    }

    /** netlink_init: everything but the type, the flags and the fixed part is zero. */
    method Init(typ: nat, flags: bv16, data: Bytes)
      requires Valid() && MSGHDR + |data| <= BUF
      modifies this`pos, this`nesting, nested, buf
      ensures Valid() && Model().open == [] && Model().pos == 16 + Align4(|data|) <= 4096
      ensures typ < 0x1_0000 ==> Word16(Model().buf, 4) == typ
      ensures Word16(Model().buf, 6) == (5 | flags) as nat
      ensures forall i :: 0 <= i < |data| ==> Model().buf[16 + i] == data[i]
      ensures forall i :: 0 <= i < 4 || 8 <= i < 16 || 16 + |data| <= i < 4096 ==> Model().buf[i] == 0
    {
      forall i | 0 <= i < BUF { buf[i] := 0; }
      forall i | 0 <= i < NESTED { nested[i] := 0; }
      nesting := 0;
      Store16(buf, 4, typ);
      Store16(buf, 6, (5 | flags) as nat);
      Memcpy(buf, MSGHDR, data);
      pos := MSGHDR + Align4(|data|);
    }

    /** The head of netlink_send_ext: a message that overran its buffer or has an
        open nest is refused, any other one gets its length. */
    method Seal() returns (ok: bool)
      requires Valid()
      modifies buf
      ensures Valid() && ok == (pos <= 4096 && nesting == 0)
      ensures !ok ==> buf[..] == old(buf[..])
      ensures ok ==> Word16(buf[..], 0) == pos && Word16(buf[..], 2) == 0 && buf[4..] == old(buf[4..])
    {
      ok := pos <= BUF && nesting == 0;
      if ok {
        Store16(buf, 0, pos);
        Store16(buf, 2, pos / 0x1_0000);
      }
    }

    /** netlink_attr */
    method Attr(typ: nat, data: Bytes)
      requires Valid() && AttrFits(Model(), data)
      modifies this`pos, buf
      ensures Valid() && Model() == AddAttr(old(Model()), typ, data)
    {
      Store16(buf, pos, HDR + |data|);
      Store16(buf, pos + 2, typ);
      Memcpy(buf, pos + HDR, data);
      pos := pos + Align4(HDR + |data|);
    }

    /** netlink_nest */
    method Nest(typ: nat)
      requires Valid() && NestFits(Model())
      modifies this`pos, this`nesting, nested, buf
      ensures Valid() && Model() == OpenNest(old(Model()), typ)
    {
      Store16(buf, pos + 2, typ);
      nested[nesting] := pos;
      assert nested[..nesting + 1] == old(nested[..nesting]) + [pos];
      pos := pos + HDR;
      nesting := nesting + 1;
    }

    /** netlink_done */
    method Done()
      requires Valid() && CanClose(Model())
      modifies this`nesting, buf
      ensures Valid() && Model() == CloseNest(old(Model()))
    {
      nesting := nesting - 1;
      var attr := nested[nesting];
      assert attr == old(Model()).open[nesting];
      Store16(buf, attr, pos - attr);
    }
  }
}
