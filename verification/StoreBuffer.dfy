/** The x86 memory of the overload-flag model: one shared memory and one FIFO
    store buffer for each thread.  A load takes the newest buffered store to its
    location and otherwise reads memory; a buffered store reaches memory when it
    is the oldest one of its buffer. */
module StoreBuffer {

  datatype Loc = Flags | Total | U | L | Lv | Lock | Epoch | DoneBind | DoneEdit

  datatype Mem = Mem(flags: nat, total: nat, u: nat, l: nat, lv: nat, lock: nat,
                     epoch: nat, doneBind: nat, doneEdit: nat)

  datatype Write = Write(loc: Loc, val: nat)

  type Buffer = seq<Write>

  function Get(m: Mem, x: Loc): nat {
    match x
    case Flags => m.flags
    case Total => m.total
    case U => m.u
    case L => m.l
    case Lv => m.lv
    case Lock => m.lock
    case Epoch => m.epoch
    case DoneBind => m.doneBind
    case DoneEdit => m.doneEdit
  }

  function Set(m: Mem, x: Loc, v: nat): Mem {
    match x
    case Flags => m.(flags := v)
    case Total => m.(total := v)
    case U => m.(u := v)
    case L => m.(l := v)
    case Lv => m.(lv := v)
    case Lock => m.(lock := v)
    case Epoch => m.(epoch := v)
    case DoneBind => m.(doneBind := v)
    case DoneEdit => m.(doneEdit := v)
  }

  /** Store-to-load forwarding: the newest of the first n buffered stores wins. */
  function Newest(m: Mem, buf: Buffer, n: nat, x: Loc): nat
    requires n <= |buf|
  {
    if n == 0 then Get(m, x)
    else if buf[n - 1].loc == x then buf[n - 1].val
    else Newest(m, buf, n - 1, x)
  }

  function Load(m: Mem, buf: Buffer, x: Loc): nat {
    Newest(m, buf, |buf|, x)
  }

  predicate Free(buf: Buffer, x: Loc) {
    forall w :: w in buf ==> w.loc != x
  }

  lemma {:induction false} NewestPrefix(m: Mem, buf: Buffer, more: Buffer, n: nat, x: Loc)
    requires n <= |buf|
    ensures Newest(m, buf + more, n, x) == Newest(m, buf, n, x)
  {
    if n > 0 { NewestPrefix(m, buf, more, n - 1, x); }
  }

  lemma LoadAfterStore(m: Mem, buf: Buffer, w: Write, x: Loc)
    ensures Load(m, buf + [w], x) == if w.loc == x then w.val else Load(m, buf, x)
  {
    NewestPrefix(m, buf, [w], |buf|, x);
  }

  lemma {:induction false} NewestAfterDrain(m: Mem, buf: Buffer, n: nat, x: Loc)
    requires n < |buf|
    ensures Newest(Set(m, buf[0].loc, buf[0].val), buf[1..], n, x) == Newest(m, buf, n + 1, x)
  {
    if n > 0 { NewestAfterDrain(m, buf, n - 1, x); }
  }

  /** Draining the oldest store never changes what the owning thread reads. */
  lemma LoadAfterDrain(m: Mem, buf: Buffer, x: Loc)
    requires buf != []
    ensures Load(Set(m, buf[0].loc, buf[0].val), buf[1..], x) == Load(m, buf, x)
  {
    NewestAfterDrain(m, buf, |buf| - 1, x);
  }

  lemma {:induction false} NewestFrame(m: Mem, m': Mem, buf: Buffer, n: nat, x: Loc)
    requires n <= |buf| && Get(m, x) == Get(m', x)
    ensures Newest(m, buf, n, x) == Newest(m', buf, n, x)
  {
    if n > 0 { NewestFrame(m, m', buf, n - 1, x); }
  }

  /** A load depends on memory only at its own location. */
  lemma LoadFrame(m: Mem, m': Mem, buf: Buffer, x: Loc)
    requires Get(m, x) == Get(m', x)
    ensures Load(m, buf, x) == Load(m', buf, x)
  {
    NewestFrame(m, m', buf, |buf|, x);
  }

  lemma {:induction false} NewestFree(m: Mem, buf: Buffer, n: nat, x: Loc)
    requires n <= |buf| && Free(buf, x)
    ensures Newest(m, buf, n, x) == Get(m, x)
  {
    if n > 0 {
      assert buf[n - 1] in buf;
      NewestFree(m, buf, n - 1, x);
    }
  }

  /** A thread with no pending store to a location reads it from memory. */
  lemma LoadFromMemory(m: Mem, buf: Buffer, x: Loc)
    requires Free(buf, x)
    ensures Load(m, buf, x) == Get(m, x)
  {
    NewestFree(m, buf, |buf|, x);
  }
}
