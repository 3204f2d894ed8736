/** The overload flag of a destination: bind and unbind threads count
    connections with a locked read-modify-write and look at one threshold
    without the lock; an editor publishes new thresholds under the lock.
    Every shared access is one step of a thread on the x86 memory of
    StoreBuffer. */
module OverloadFlag {
  import opened Prelude
  import opened StoreBuffer

  /** tso: stores go through store buffers (false: they reach memory at once).
      fence: the editor executes the full fence after publishing. */
  datatype Config = Config(tso: bool, fence: bool) {
    /** The threshold stores cannot be delayed past the editor's read of the count. */
    predicate Ordered() { fence || !tso }
  }

  datatype Op = BindOp | UnbindOp | EditOp(u: nat, l: nat, lv: nat)

  /** The next shared access of a thread, with the values it has read so far. */
  datatype Pc =
    | Idle
    | Count
    | Compare(tc: nat)
    | CheckU
    | CheckL
    | Acquire
    | PutU
    | PutL
    | PutLv
    | Barrier
    | GetU
    | GetLv(u: nat)
    | GetTotal(u: nat, lv: nat)
    | PutFlags(v: nat)
    | Release

  datatype Thread = Thread(op: Op, pc: Pc, buf: Buffer)

  const OVERLOAD: nat := 2

  /** The tail of update() once threshold and count have been read. */
  function Judge(op: Op, u: nat, lv: nat, conns: nat): Pc {
    if conns >= (if op.BindOp? then lv else u) then PutFlags(OVERLOAD)
    else if conns >= (if op.UnbindOp? then u else lv) then Release
    else PutFlags(0)
  }

  function StartPc(op: Op): Pc {
    if op.EditOp? then CheckU else Count
  }

  function Store(c: Config, m: Mem, t: Thread, x: Loc, v: nat, pc: Pc): (Mem, Thread) {
    if c.tso then (m, t.(buf := t.buf + [Write(x, v)], pc := pc))
    else (Set(m, x, v), t.(pc := pc))
  }

  /** The counter is a C int read as unsigned by every comparison: this is its
      unsigned 32-bit view. */
  function Counted(op: Op, total: nat): nat {
    if op.BindOp? then (total + 1) % WORD else (total - 1) % WORD
  }

  predicate Wraps(op: Op, total: nat) {
    if op.BindOp? then total == WORD - 1 else total == 0
  }

  /** One instruction of a thread.  A read-modify-write and the fence wait for
      an empty buffer; a failed lock attempt leaves the thread where it is. */
  function Step(c: Config, m: Mem, t: Thread): (Mem, Thread) {
    match t.pc
    case Idle => (m, t)
    case Count =>
      if t.buf != [] then (m, t)
      else (m.(total := Counted(t.op, m.total)),
            t.(pc := Compare(if t.op.BindOp? then Counted(t.op, m.total) else m.total)))
    case Compare(tc) =>
      (m, t.(pc := if tc == Load(m, t.buf, if t.op.BindOp? then U else Lv) then Acquire else Idle))
    case CheckU =>
      (m, t.(pc := if t.op.EditOp? && Load(m, t.buf, U) == t.op.u then CheckL else Acquire))
    case CheckL =>
      (m, t.(pc := if t.op.EditOp? && Load(m, t.buf, L) == t.op.l then Idle else Acquire))
    case Acquire =>
      if t.buf != [] || m.lock != 0 then (m, t)
      else (m.(lock := 1), t.(pc := if t.op.EditOp? then PutU else GetU))
    case PutU => Store(c, m, t, U, if t.op.EditOp? then t.op.u else 0, PutL)
    case PutL => Store(c, m, t, L, if t.op.EditOp? then t.op.l else 0, PutLv)
    case PutLv => Store(c, m, t, Lv, if t.op.EditOp? then t.op.lv else 0, Barrier)
    case Barrier => if c.fence && t.buf != [] then (m, t) else (m, t.(pc := GetU))
    case GetU =>
      var u := Load(m, t.buf, U);
      (m, t.(pc := if u == 0 then PutFlags(0) else GetLv(u)))
    case GetLv(u) => (m, t.(pc := GetTotal(u, Load(m, t.buf, Lv))))
    case GetTotal(u, lv) => (m, t.(pc := Judge(t.op, u, lv, Load(m, t.buf, Total))))
    case PutFlags(v) => Store(c, m, t, Flags, v, Release)
    case Release => Store(c, m, t, Lock, 0, Idle)
  }

  /** The oldest buffered store of a thread reaches memory. */
  function DrainOne(m: Mem, t: Thread): (Mem, Thread) {
    if t.buf == [] then (m, t)
    else (Set(m, t.buf[0].loc, t.buf[0].val), t.(buf := t.buf[1..]))
  }

  // ----- any number of threads, each running any sequence of operations

  /** wrapped records that some read-modify-write has wrapped the counter. */
  datatype State = State(mem: Mem, threads: seq<Thread>, wrapped: bool)

  datatype Label = Begin(i: nat, op: Op) | Run(i: nat) | Drain(i: nat)

  /** The kernel derives lv from u and l so that it never exceeds u. */
  predicate WellFormed(op: Op) {
    op.EditOp? ==> op.lv <= op.u
  }

  /** The machine's answer to a scheduler choice; a choice that is not enabled
      changes nothing, so every sequence of labels is a schedule. */
  function Next(c: Config, s: State, a: Label): State {
    if a.i >= |s.threads| then s
    else
      var t := s.threads[a.i];
      match a
      case Begin(i, op) =>
        if t.pc == Idle && WellFormed(op) then
          s.(threads := s.threads[i := t.(op := op, pc := StartPc(op))])
        else s
      case Run(i) =>
        var (m, t') := Step(c, s.mem, t);
        State(m, s.threads[i := t'],
              s.wrapped || (t.pc == Count && t.buf == [] && Wraps(t.op, s.mem.total)))
      case Drain(i) =>
        var (m, t') := DrainOne(s.mem, t);
        s.(mem := m, threads := s.threads[i := t'])
  }

  function Exec(c: Config, s: State, sched: seq<Label>): State
    decreases |sched|
  {
    if sched == [] then s else Exec(c, Next(c, s, sched[0]), sched[1..])
  }

  /** The flag a destination should carry; between the two thresholds either
      value is allowed (hysteresis). */
  predicate Right(flags: nat, u: nat, lv: nat, total: nat) {
    && (0 < u <= total ==> flags == OVERLOAD)
    && (u == 0 || total < lv ==> flags == 0)
  }

  /** A destination nobody is working on. */
  predicate Initial(s: State) {
    && s.mem.lock == 0 && s.mem.lv <= s.mem.u && s.mem.total < WORD
    && (s.mem.flags == 0 || s.mem.flags == OVERLOAD)
    && Right(s.mem.flags, s.mem.u, s.mem.lv, s.mem.total)
    && !s.wrapped
    && forall t :: t in s.threads ==> t.pc == Idle && t.buf == []
  }

  predicate Quiescent(s: State) {
    forall t :: t in s.threads ==> t.pc == Idle && t.buf == []
  }
}
