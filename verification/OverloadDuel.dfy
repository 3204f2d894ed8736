/** Without the fence, on store buffers: one edit against one bind or unbind
    loses the transition. */
module OverloadDuel {
  import opened Prelude
  import opened StoreBuffer
  import opened OverloadFlag

  /** The memory, the editor and the counting thread. */
  datatype Pair = Pair(mem: Mem, e: Thread, b: Thread)

  datatype Move = EditRuns | BindRuns | EditDrains

  function Act(c: Config, p: Pair, v: Move): Pair {
    match v
    case EditRuns => var (m, t) := Step(c, p.mem, p.e); Pair(m, t, p.b)
    case BindRuns => var (m, t) := Step(c, p.mem, p.b); Pair(m, p.e, t)
    case EditDrains => var (m, t) := DrainOne(p.mem, p.e); Pair(m, t, p.b)
  }

  function Duel(c: Config, p: Pair, moves: seq<Move>): Pair
    decreases |moves|
  {
    if moves == [] then p else Duel(c, Act(c, p, moves[0]), moves[1..])
  }

  lemma {:induction false} DuelAppend(c: Config, p: Pair, x: seq<Move>, y: seq<Move>)
    ensures Duel(c, p, x + y) == Duel(c, Duel(c, p, x), y)
    decreases |x|
  {
    if x == [] {
      assert x + y == y;
    } else {
      assert (x + y)[1..] == x[1..] + y;
      DuelAppend(c, Act(c, p, x[0]), x[1..], y);
    }
  }

  lemma DuelMore(c: Config, p: Pair, moves: seq<Move>, v: Move)
    ensures Duel(c, p, moves + [v]) == Act(c, Duel(c, p, moves), v)
  {
    DuelAppend(c, p, moves, [v]);
    assert [v][1..] == [];
  }

  function Stores(op: Op): Buffer {
    if op.EditOp? then [Write(U, op.u), Write(L, op.l), Write(Lv, op.lv)] else []
  }

  /** What the editor sees of the thresholds behind its own three stores. */
  lemma OwnStores(m: Mem, op: Op)
    requires op.EditOp?
    ensures Load(m, Stores(op), U) == op.u && Load(m, Stores(op), Lv) == op.lv
    ensures Load(m, Stores(op), Total) == m.total && Load(m, Stores(op), Flags) == m.flags
  {
    forall x {:trigger Load(m, Stores(op), x)}
      ensures Load(m, Stores(op), x)
        == if x == Lv then op.lv else if x == L then op.l else if x == U then op.u else Get(m, x)
    {
      LoadAfterStore(m, [Write(U, op.u), Write(L, op.l)], Write(Lv, op.lv), x);
      LoadAfterStore(m, [Write(U, op.u)], Write(L, op.l), x);
      LoadAfterStore(m, [], Write(U, op.u), x);
      assert [Write(U, op.u), Write(L, op.l)] + [Write(Lv, op.lv)] == Stores(op);
      assert [Write(U, op.u)] + [Write(L, op.l)] == [Write(U, op.u), Write(L, op.l)];
      assert [] + [Write(U, op.u)] == [Write(U, op.u)];
    }
  }

  /** The editor's way to its verdict, one entry for each pc. */
  function EditorAt(p: Pair, op: Op, pc: Pc): Pair
    requires op.EditOp?
  {
    var before := pc.CheckU? || pc.CheckL? || pc.Acquire?;
    var buf :=
      if before || pc.PutU? then []
      else if pc.PutL? then [Write(U, op.u)]
      else if pc.PutLv? then [Write(U, op.u), Write(L, op.l)]
      else Stores(op);
    Pair(if before then p.mem else p.mem.(lock := 1), Thread(op, pc, buf), p.b)
  }

  function After(p: Pair, op: Op, pc: Pc): Pc
    requires op.EditOp?
  {
    match pc
    case CheckU => if p.mem.u == op.u then CheckL else Acquire
    case CheckL => Acquire
    case Acquire => PutU
    case PutU => PutL
    case PutL => PutLv
    case PutLv => Barrier
    case Barrier => GetU
    case GetU => GetLv(op.u)
    case GetLv(u) => GetTotal(op.u, op.lv)
    case _ => Judge(op, op.u, op.lv, p.mem.total)
  }

  function Distance(pc: Pc): nat {
    match pc
    case CheckU => 10
    case CheckL => 9
    case Acquire => 8
    case PutU => 7
    case PutL => 6
    case PutLv => 5
    case Barrier => 4
    case GetU => 3
    case GetLv(u) => 2
    case GetTotal(u, lv) => 1
    case _ => 0
  }

  predicate OnItsWay(op: Op, pc: Pc)
    requires op.EditOp?
  {
    Distance(pc) > 0 && (pc.GetLv? ==> pc.u == op.u) && (pc.GetTotal? ==> pc.u == op.u && pc.lv == op.lv)
  }

  /** The edit is not a no-op, nobody holds the lock, and no fence intervenes. */
  predicate Clear(c: Config, p: Pair, op: Op) {
    c.tso && !c.fence && op.EditOp? && op.u > 0 && p.mem.lock == 0 && (p.mem.u != op.u || p.mem.l != op.l)
  }

  lemma EditorStep(c: Config, p: Pair, op: Op, pc: Pc)
    requires Clear(c, p, op) && OnItsWay(op, pc) && (pc.CheckL? ==> p.mem.u == op.u)
    ensures Act(c, EditorAt(p, op, pc), EditRuns) == EditorAt(p, op, After(p, op, pc))
  {
    OwnStores(p.mem.(lock := 1), op);
  }

  /** The editor reads the old count while its thresholds are still buffered. */
  lemma EditorDecides(c: Config, p: Pair, op: Op) returns (moves: seq<Move>)
    requires Clear(c, p, op) && p.e == Thread(op, CheckU, [])
    ensures Duel(c, p, moves) == EditorAt(p, op, Judge(op, op.u, op.lv, p.mem.total))
  {
    moves := [];
    var pc := CheckU;
    while Distance(pc) > 0
      invariant Duel(c, p, moves) == EditorAt(p, op, pc)
      invariant Distance(pc) > 0 ==> OnItsWay(op, pc)
      invariant Distance(pc) == 0 ==> pc == Judge(op, op.u, op.lv, p.mem.total)
      invariant pc.CheckL? ==> p.mem.u == op.u
      decreases Distance(pc)
    {
      EditorStep(c, p, op, pc);
      DuelMore(c, p, moves, EditRuns);
      moves := moves + [EditRuns];
      pc := After(p, op, pc);
    }
  }

  /** Everything a thread has buffered, written out oldest first. */
  function Flush(m: Mem, buf: Buffer): Mem
    decreases |buf|
  {
    if buf == [] then m else Flush(Set(m, buf[0].loc, buf[0].val), buf[1..])
  }

  lemma {:induction false} EditorDrains(c: Config, p: Pair) returns (moves: seq<Move>)
    ensures Duel(c, p, moves) == Pair(Flush(p.mem, p.e.buf), p.e.(buf := []), p.b)
    decreases |p.e.buf|
  {
    moves := [];
    if p.e.buf != [] {
      var rest := EditorDrains(c, Act(c, p, EditDrains));
      moves := [EditDrains] + rest;
    }
  }

  lemma FlushAppend(m: Mem, buf: Buffer, w: Write)
    ensures Flush(m, buf + [w]) == Set(Flush(m, buf), w.loc, w.val)
    decreases |buf|
  {
    if buf == [] {
      assert (buf + [w])[1..] == [];
    } else {
      assert (buf + [w])[1..] == buf[1..] + [w];
      FlushAppend(Set(m, buf[0].loc, buf[0].val), buf[1..], w);
    }
  }

  lemma FlushStores(m: Mem, op: Op)
    requires op.EditOp?
    ensures Flush(m, Stores(op)) == m.(u := op.u, l := op.l, lv := op.lv)
  {
    assert [Write(U, op.u), Write(L, op.l)] + [Write(Lv, op.lv)] == Stores(op);
    assert [Write(U, op.u)] + [Write(L, op.l)] == [Write(U, op.u), Write(L, op.l)];
    FlushAppend(m, [Write(U, op.u), Write(L, op.l)], Write(Lv, op.lv));
    FlushAppend(m, [Write(U, op.u)], Write(L, op.l));
    assert [Write(U, op.u)][1..] == [];
  }

  /** From its verdict the editor runs to the end and its buffer drains. */
  lemma EditorFinishes(c: Config, p: Pair) returns (moves: seq<Move>)
    requires c.tso && (p.e.pc.PutFlags? || p.e.pc.Release?)
    ensures
      Duel(c, p, moves) ==
        Pair((if p.e.pc.PutFlags? then Flush(p.mem, p.e.buf).(flags := p.e.pc.v)
              else Flush(p.mem, p.e.buf)).(lock := 0),
             Thread(p.e.op, Idle, []), p.b)
  {
    moves := [];
    var q := p;
    if p.e.pc.PutFlags? {
      FlushAppend(p.mem, p.e.buf, Write(Flags, p.e.pc.v));
      DuelMore(c, p, moves, EditRuns);
      moves := moves + [EditRuns];
      q := Act(c, p, EditRuns);
    }
    FlushAppend(q.mem, q.e.buf, Write(Lock, 0));
    DuelMore(c, p, moves, EditRuns);
    moves := moves + [EditRuns];
    q := Act(c, q, EditRuns);
    var rest := EditorDrains(c, q);
    DuelAppend(c, p, moves, rest);
    moves := moves + rest;
  }

  /** The transition that the unfenced editor and the counting thread both
      overlook: a count that reaches the new upper threshold, or drops below the
      new lower one, while the other threshold values were different before. */
  predicate Overlooked(m: Mem, edit: Op, count: Op) {
    && edit.EditOp? && 0 < edit.u && edit.lv <= edit.u
    && match count
       case BindOp =>
         m.total + 1 == edit.u < WORD && m.u != edit.u && (m.flags == 0 || edit.lv == edit.u)
       case UnbindOp =>
         0 < m.total == edit.lv < WORD && m.lv != edit.lv && (m.u != edit.u || m.l != edit.l)
           && (m.flags == OVERLOAD || edit.lv == edit.u)
       case _ => false
  }

  /** Memory after the lost transition. */
  function Lost(m: Mem, edit: Op, count: Op): Mem
    requires edit.EditOp?
  {
    m.(u := edit.u, l := edit.l, lv := edit.lv,
       total := Counted(count, m.total), flags := if count.BindOp? then 0 else OVERLOAD)
  }

  /** The counting thread finds the old threshold and leaves the lock alone. */
  lemma CountSlips(c: Config, q: Pair)
    requires q.b == Thread(q.b.op, Count, []) && !q.b.op.EditOp?
    requires if q.b.op.BindOp? then Counted(BindOp, q.mem.total) != q.mem.u else q.mem.total != q.mem.lv
    ensures
      Act(c, Act(c, q, BindRuns), BindRuns)
        == Pair(q.mem.(total := Counted(q.b.op, q.mem.total)), q.e, Thread(q.b.op, Idle, []))
  {
  }

  lemma OverlookedIsWrong(m: Mem, edit: Op, count: Op)
    requires Overlooked(m, edit, count)
    ensures var x := Lost(m, edit, count); !Right(x.flags, x.u, x.lv, x.total)
    ensures
      var verdict := Judge(edit, edit.u, edit.lv, m.total);
      if verdict.PutFlags? then verdict.v == Lost(m, edit, count).flags
      else verdict.Release? && m.flags == Lost(m, edit, count).flags
  {
  }

  /** Every overlooked count is lost in some run of the two. */
  lemma DuelMisses(c: Config, p: Pair) returns (moves: seq<Move>)
    requires c.tso && !c.fence && p.mem.lock == 0
    requires p.e == Thread(p.e.op, CheckU, []) && p.b == Thread(p.b.op, Count, [])
    requires Overlooked(p.mem, p.e.op, p.b.op)
    ensures
      var m := Lost(p.mem, p.e.op, p.b.op);
      && Duel(c, p, moves) == Pair(m, Thread(p.e.op, Idle, []), Thread(p.b.op, Idle, []))
      && !Right(m.flags, m.u, m.lv, m.total)
  {
    var op := p.e.op;
    OverlookedIsWrong(p.mem, op, p.b.op);
    moves := EditorDecides(c, p, op);
    var q := EditorAt(p, op, Judge(op, op.u, op.lv, p.mem.total));
    CountSlips(c, q);
    DuelMore(c, p, moves, BindRuns);
    DuelMore(c, p, moves + [BindRuns], BindRuns);
    moves := moves + [BindRuns] + [BindRuns];
    q := Act(c, Act(c, q, BindRuns), BindRuns);
    FlushStores(q.mem, op);
    var rest := EditorFinishes(c, q);
    DuelAppend(c, p, moves, rest);
    moves := moves + rest;
  }
}
