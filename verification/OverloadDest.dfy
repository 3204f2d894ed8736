/** The destination object itself, its operations run one at a time. */
module OverloadDest {
  import opened Prelude
  import opened OverloadFlag

  class Dest {
    var flags: nat
    var total: nat
    var u: nat
    var l: nat
    var lv: nat

    ghost predicate Valid()
      reads this
    {
      && lv <= u && total < WORD && (flags == 0 || flags == OVERLOAD)
      && Right(flags, u, lv, total)
    }

    constructor ()
      ensures Valid() && flags == total == u == l == lv == 0
    {
      flags, total, u, l, lv := 0, 0, 0, 0, 0;
    }

    /** update(): mode is positive after a bind, negative after an unbind and
        zero after an edit.  Whatever the flag was, it is right afterwards, and
        the verdict is the one the step machine reaches. */
    method Update(mode: int, ghost op: Op)
      requires lv <= u && (flags == 0 || flags == OVERLOAD)
      requires if mode > 0 then op.BindOp? else if mode < 0 then op.UnbindOp? else op.EditOp?
      modifies this`flags
      ensures Right(flags, u, lv, total) && (flags == 0 || flags == OVERLOAD)
      ensures u == 0 ==> flags == 0
      ensures u > 0 ==>
        match Judge(op, u, lv, total)
        case PutFlags(v) => flags == v
        case _ => flags == old(flags)
      ensures lv <= total < u ==> flags == if mode > 0 then OVERLOAD else if mode < 0 then 0 else old(flags)
    {
      if u != 0 {
        if total >= (if mode > 0 then lv else u) {
          flags := OVERLOAD;
          return;
        }
        if total >= (if mode < 0 then u else lv) {
          return;
        }
      }
      flags := 0;
    }

    method Bind()
      requires Valid() && total < WORD - 1
      modifies this`flags, this`total
      ensures Valid() && total == old(total) + 1
      ensures flags != old(flags) ==> flags == OVERLOAD && total == u
    {
      total := total + 1;
      if total == u {
        Update(1, BindOp);
      }
    }

    method Unbind()
      requires Valid() && total > 0
      modifies this`flags, this`total
      ensures Valid() && total == old(total) - 1
      ensures flags != old(flags) ==> flags == 0 && old(total) == lv
    {
      var tc := total;
      total := total - 1;
      if tc == lv {
        Update(-1, UnbindOp);
      }
    }

    /** An edit that changes neither u nor l is skipped, lv included. */
    method Edit(u': nat, l': nat, lv': nat)
      requires Valid() && lv' <= u'
      modifies this`flags, this`u, this`l, this`lv
      ensures Valid() && u == u' && l == l'
      ensures lv == if old(u) == u' && old(l) == l' then old(lv) else lv'
      ensures flags != old(flags) ==> flags == if total >= u > 0 then OVERLOAD else 0
      ensures lv <= total < u || (old(u) == u' && old(l) == l') ==> flags == old(flags)
    {
      if u != u' || l != l' {
        u, l, lv := u', l', lv';
        Update(0, EditOp(u', l', lv'));
      }
    }
  }
}
