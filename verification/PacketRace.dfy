/** The packet race: main, an editor and a sender that each act once a round, and a
    server that notes the sequence number it received last, over a channel that may
    lose, repeat and reorder.  Shared variables are x86 memory: every thread has a
    FIFO of stores that have not reached it.  No thread reads a variable it writes
    before its own stores have drained, so no load looks into a buffer. */
module PacketRace {
  import opened Prelude

  datatype Shared = Shared(epoch: nat, edited: nat, sent: nat, editError: nat, sendError: nat,
                           lastSeen: nat, stop: bool)

  datatype Write =
    | Epoch(n: nat) | Edited(n: nat) | Sent(n: nat)
    | EditError(err: nat) | SendError(err: nat) | LastSeen(seqno: nat)

  type Buffer = seq<Write>

  function Put(m: Shared, w: Write): Shared {
    match w
    case Epoch(n) => m.(epoch := n)
    case Edited(n) => m.(edited := n)
    case Sent(n) => m.(sent := n)
    case EditError(e) => m.(editError := e)
    case SendError(e) => m.(sendError := e)
    case LastSeen(x) => m.(lastSeen := x)
  }

  datatype MainPc =
    | SendSmoke | AwaitSmoke(polls: nat) | CreateEditor | CreateSender
    | Guard | Rearm | Rearming | Initial | PutEpoch | WaitEdited | WaitSent | Errors
    | AwaitRacing(polls: nat) | Inspect | Confirm | SendProbe | AwaitProbe(polls: nat)
    | PutStop | JoinEditor | JoinSender | JoinServer | Done | Died

  datatype Main = Main(n: nat, pc: MainPc, completed: nat, misses: nat, probeLost: bool, buf: Buffer)

  datatype WorkerPc = Unborn | AtGuard | LoadEpoch | LoadStop | Call | Calling | PutError | PutDone | Returned

  /** One call a worker made: the round and the error number, 0 for success. */
  datatype Report = Report(round: nat, err: nat)

  datatype Worker = Worker(n: nat, pc: WorkerPc, calls: seq<Report>, buf: Buffer)

  datatype ServerPc = CheckStop | Poll | PutSeen(seqno: nat) | Gone

  /** got is every sequence number recv has returned. */
  datatype Server = Server(pc: ServerPc, got: set<nat>, buf: Buffer)

  /** upper is the destination's threshold, wire every datagram that left. */
  datatype System = System(iterations: nat, mem: Shared, main: Main, ed: Worker, tx: Worker, rx: Server,
                           upper: nat, wire: set<nat>)

  datatype Who = TheMain | TheEditor | TheSender | TheServer

  /** What the kernel answers a system call: an error number, whether a datagram
      left, which datagram arrived, what the state file shows. */
  datatype Answer = Answer(err: nat, left: bool, arrived: nat, readable: bool,
                           total: int, u: nat, l: nat, over: nat)

  datatype Label = Run(who: Who, a: Answer) | Drain(who: Who)

  /** The next value of an unsigned loop counter. */
  function Bump(n: nat): (r: nat)
    ensures r == (n + 1) % WORD || n >= WORD
  {
    if n + 1 < WORD then n + 1 else 0
  }

  function Send(wire: set<nat>, x: nat, a: Answer): set<nat> { if a.left then wire + {x} else wire }

  /** await_packet after some polls, milliseconds being its bound: arrived, given up
      or still waiting. */
  datatype Verdict = Arrived | GaveUp | Waiting

  function AwaitPacket(m: Shared, x: nat, polls: nat, milliseconds: nat): Verdict {
    if m.lastSeen >= x then Arrived else if polls >= milliseconds then GaveUp else Waiting
  }

  function MainStep(s: System, a: Answer): System {
    var m, n := s.main, s.main.n;
    match m.pc
    case SendSmoke =>
      s.(wire := Send(s.wire, 1, a), main := m.(pc := if a.err != 0 then Died else AwaitSmoke(0)))
    case AwaitSmoke(k) =>
      s.(main := m.(pc := match AwaitPacket(s.mem, 1, k, 1000)
                          case Arrived => CreateEditor case GaveUp => Died case Waiting => AwaitSmoke(k + 1)))
    case CreateEditor =>
      if a.err != 0 then s.(main := m.(pc := Died))
      else s.(main := m.(pc := CreateSender), ed := s.ed.(pc := AtGuard))
    case CreateSender =>
      if a.err != 0 then s.(main := m.(pc := Died))
      else s.(main := m.(pc := Guard), tx := s.tx.(pc := AtGuard))
    case Guard => s.(main := m.(pc := if n <= s.iterations then Rearm else PutStop))
    case Rearm => s.(main := m.(pc := Rearming))
    case Rearming =>
      if a.err != 0 then s.(main := m.(pc := Died)) else s.(upper := 2, main := m.(pc := Initial))
    case Initial =>
      s.(main := m.(pc := if !a.readable || a.total != 0 || a.over != 0 then Died else PutEpoch))
    case PutEpoch => s.(main := m.(pc := WaitEdited, buf := m.buf + [Epoch(n)]))
    case WaitEdited => if s.mem.edited != n then s else s.(main := m.(pc := WaitSent))
    case WaitSent => s.(main := m.(pc := if s.mem.sent != n then WaitEdited else Errors))
    case Errors =>
      s.(main := m.(pc := if s.mem.editError != 0 || s.mem.sendError != 0 then Died else AwaitRacing(0)))
    case AwaitRacing(k) =>
      s.(main := m.(pc := match AwaitPacket(s.mem, 2 * n, k, 1000)
                          case Arrived => Inspect case GaveUp => Died case Waiting => AwaitRacing(k + 1)))
    case Inspect =>
      if !a.readable then s.(main := m.(pc := Died))
      else if a.over != 0 && a.total == 0 then s.(main := m.(pc := Confirm, completed := Bump(m.completed)))
      else s.(main := m.(pc := Guard, n := Bump(n), completed := Bump(m.completed)))
    case Confirm =>
      if !a.readable then s.(main := m.(pc := Died))
      else if a.over != 0 && a.total == 0 && a.u == 1 && a.l == 1 then
        s.(main := m.(pc := SendProbe, misses := Bump(m.misses)))
      else s.(main := m.(pc := Guard, n := Bump(n)))
    case SendProbe => s.(wire := Send(s.wire, 2 * n + 1, a), main := m.(pc := AwaitProbe(0)))
    case AwaitProbe(k) =>
      (match AwaitPacket(s.mem, 2 * n + 1, k, 100)
       case Arrived => s.(main := m.(pc := PutStop, probeLost := false))
       case GaveUp => s.(main := m.(pc := PutStop, probeLost := true))
       case Waiting => s.(main := m.(pc := AwaitProbe(k + 1))))
    case PutStop => if m.buf != [] then s else s.(mem := s.mem.(stop := true), main := m.(pc := JoinEditor))
    case JoinEditor => if !s.ed.pc.Returned? then s else s.(main := m.(pc := JoinSender))
    case JoinSender => if !s.tx.pc.Returned? then s else s.(main := m.(pc := JoinServer))
    case JoinServer => if !s.rx.pc.Gone? then s else s.(main := m.(pc := Done))
    case Done => s
    case Died => s
  }

  /** The editor and the sender differ in the variables they report to. */
  datatype Job = Edits | Sends

  function ErrorOf(j: Job, err: nat): Write { if j.Edits? then EditError(err) else SendError(err) }
  function EndOf(j: Job, n: nat): Write { if j.Edits? then Edited(n) else Sent(n) }

  /** One instruction of the editor or the sender. */
  function WorkerStep(iterations: nat, m: Shared, j: Job, w: Worker, a: Answer): Worker {
    match w.pc
    case Unborn => w
    case AtGuard => w.(pc := if w.n <= iterations then LoadEpoch else Returned)
    case LoadEpoch => w.(pc := if m.epoch == w.n then Call else LoadStop)
    case LoadStop => w.(pc := if m.stop then Returned else LoadEpoch)
    case Call => w.(pc := Calling)
    case Calling => w.(pc := PutError, calls := w.calls + [Report(w.n, a.err)])
    case PutError =>
      if w.calls == [] then w
      else w.(pc := PutDone, buf := w.buf + [ErrorOf(j, w.calls[|w.calls| - 1].err)])
    case PutDone => w.(pc := AtGuard, n := Bump(w.n), buf := w.buf + [EndOf(j, w.n)])
    case Returned => w
  }

  function ServerStep(m: Shared, wire: set<nat>, r: Server, a: Answer): Server {
    match r.pc
    case CheckStop => r.(pc := if m.stop then Gone else Poll)
    case Poll =>
      if a.readable && a.arrived in wire then r.(pc := PutSeen(a.arrived), got := r.got + {a.arrived})
      else r.(pc := CheckStop)
    case PutSeen(x) => r.(pc := CheckStop, buf := r.buf + [LastSeen(x)])
    case Gone => r
  }

  function Next(s: System, e: Label): System {
    if s.main.pc.Died? then s
    else match e
      case Run(TheMain, a) => MainStep(s, a)
      case Run(TheEditor, a) =>
        s.(ed := WorkerStep(s.iterations, s.mem, Edits, s.ed, a),
           upper := if s.ed.pc.Calling? && a.err == 0 then 1 else s.upper)
      case Run(TheSender, a) =>
        s.(tx := WorkerStep(s.iterations, s.mem, Sends, s.tx, a),
           wire := if s.tx.pc.Calling? then Send(s.wire, 2 * s.tx.n, a) else s.wire)
      case Run(TheServer, a) => s.(rx := ServerStep(s.mem, s.wire, s.rx, a))
      case Drain(TheMain) =>
        if s.main.buf == [] then s
        else s.(mem := Put(s.mem, s.main.buf[0]), main := s.main.(buf := s.main.buf[1..]))
      case Drain(TheEditor) =>
        if s.ed.buf == [] then s
        else s.(mem := Put(s.mem, s.ed.buf[0]), ed := s.ed.(buf := s.ed.buf[1..]))
      case Drain(TheSender) =>
        if s.tx.buf == [] then s
        else s.(mem := Put(s.mem, s.tx.buf[0]), tx := s.tx.(buf := s.tx.buf[1..]))
      case Drain(TheServer) =>
        if s.rx.buf == [] then s
        else s.(mem := Put(s.mem, s.rx.buf[0]), rx := s.rx.(buf := s.rx.buf[1..]))
  }

  function Exec(s: System, run: seq<Label>): System
    decreases |run|
  {
    if run == [] then s else Exec(Next(s, run[0]), run[1..])
  }

  /** The destination is added with threshold 2 and the server runs; nothing was sent. */
  function Boot(iterations: nat): System {
    System(iterations, Shared(0, 0, 0, 0, 0, 0, false), Main(1, SendSmoke, 0, 0, false, []),
           Worker(1, Unborn, [], []), Worker(1, Unborn, [], []), Server(CheckStop, {}, []), 2, {})
  }
}
