/** The whole program: a main thread that resets the destination, releases one
    bind (or unbind) worker and one edit worker by bumping an epoch, waits for
    both to report, and inspects the flag, for any number of rounds. */
module OverloadHarness {
  import opened StoreBuffer
  import opened OverloadFlag

  datatype Setup = Setup(c: Config, unbind: bool, iterations: nat) {
    function Total0(): nat { if unbind then 75 else 99 }
    function U0(): nat { if unbind then 100 else 200 }
    function L0(): nat { if unbind then 50 else 0 }
    function Lv0(): nat { if unbind then 50 else 150 }
    function Flags0(): nat { if unbind then OVERLOAD else 0 }
    function Count(): Op { if unbind then UnbindOp else BindOp }
    function Edit(): Op { EditOp(100, if unbind then 75 else 0, 75) }
    function Expected(): nat { if unbind then 0 else OVERLOAD }
  }

  datatype MainPc =
    | PutTotal | PutU0 | PutL0 | PutLv0 | PutFlags0 | PutEpoch
    | AwaitBind | AwaitEdit | Inspect

  datatype Main = Main(n: nat, pc: MainPc, misses: nat, buf: Buffer)

  /** n counts the rounds a worker has reported; while waiting it has nothing to
      do with the destination. */
  datatype Worker = Worker(n: nat, waiting: bool, th: Thread)

  datatype System = System(mem: Mem, main: Main, b: Worker, e: Worker)

  datatype Choice = RunMain | RunBind | RunEdit | DrainMain | DrainBind | DrainEdit

  function MainStore(h: Setup, s: System, x: Loc, v: nat, pc: MainPc): System {
    if h.c.tso then s.(main := s.main.(buf := s.main.buf + [Write(x, v)], pc := pc))
    else s.(mem := Set(s.mem, x, v), main := s.main.(pc := pc))
  }

  function MainStep(h: Setup, s: System): System {
    var n := s.main.n;
    match s.main.pc
    case PutTotal => if n >= h.iterations then s else MainStore(h, s, Total, h.Total0(), PutU0)
    case PutU0 => MainStore(h, s, U, h.U0(), PutL0)
    case PutL0 => MainStore(h, s, L, h.L0(), PutLv0)
    case PutLv0 => MainStore(h, s, Lv, h.Lv0(), PutFlags0)
    case PutFlags0 => MainStore(h, s, Flags, h.Flags0(), PutEpoch)
    case PutEpoch => MainStore(h, s, Epoch, n + 1, AwaitBind)
    case AwaitBind =>
      if Load(s.mem, s.main.buf, DoneBind) < n + 1 then s
      else s.(main := s.main.(pc := AwaitEdit))
    case AwaitEdit =>
      s.(main := s.main.(pc := if Load(s.mem, s.main.buf, DoneEdit) < n + 1 then AwaitBind else Inspect))
    case Inspect =>
      var miss := Load(s.mem, s.main.buf, Flags) != h.Expected();
      s.(main := s.main.(n := n + 1, pc := PutTotal, misses := s.main.misses + if miss then 1 else 0))
  }

  /** One instruction of a worker: spin on the epoch, work on the destination, or
      report the round. */
  function WorkerStep(h: Setup, m: Mem, w: Worker, op: Op, done: Loc): (Mem, Worker) {
    if w.waiting then
      if w.n < h.iterations && Load(m, w.th.buf, Epoch) >= w.n + 1 then
        (m, w.(waiting := false, th := w.th.(op := op, pc := StartPc(op))))
      else (m, w)
    else if w.th.pc == Idle then
      var (m', t') := Store(h.c, m, w.th, done, w.n + 1, Idle);
      (m', Worker(w.n + 1, true, t'))
    else
      var (m', t') := Step(h.c, m, w.th);
      (m', w.(th := t'))
  }

  function Choose(h: Setup, s: System, a: Choice): System {
    match a
    case RunMain => MainStep(h, s)
    case RunBind =>
      var (m, w) := WorkerStep(h, s.mem, s.b, h.Count(), DoneBind);
      s.(mem := m, b := w)
    case RunEdit =>
      var (m, w) := WorkerStep(h, s.mem, s.e, h.Edit(), DoneEdit);
      s.(mem := m, e := w)
    case DrainMain =>
      if s.main.buf == [] then s
      else s.(mem := Set(s.mem, s.main.buf[0].loc, s.main.buf[0].val),
              main := s.main.(buf := s.main.buf[1..]))
    case DrainBind =>
      var (m, t) := DrainOne(s.mem, s.b.th);
      s.(mem := m, b := s.b.(th := t))
    case DrainEdit =>
      var (m, t) := DrainOne(s.mem, s.e.th);
      s.(mem := m, e := s.e.(th := t))
  }

  function Play(h: Setup, s: System, choices: seq<Choice>): System
    decreases |choices|
  {
    if choices == [] then s else Play(h, Choose(h, s, choices[0]), choices[1..])
  }

  /** Static storage starts at zero and the workers start waiting. */
  function Boot(): System {
    System(Mem(0, 0, 0, 0, 0, 0, 0, 0, 0), Main(0, PutTotal, 0, []),
           Worker(0, true, Thread(BindOp, Idle, [])), Worker(0, true, Thread(BindOp, Idle, [])))
  }

  predicate Finished(h: Setup, s: System) {
    && s.main.n == h.iterations && s.main.pc == PutTotal && s.main.buf == []
    && s.b.n == h.iterations && s.e.n == h.iterations
  }
}
