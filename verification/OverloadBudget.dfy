/** How many binds and unbinds a destination can take: as long as the count cannot
    leave its 32 bits the flag is right, and one operation more can make it wrong. */
module OverloadBudget {
  import opened Prelude
  import opened StoreBuffer
  import opened OverloadFlag
  import opened OverloadSafety

  /** The operations of a kind that a schedule begins. */
  function Begun(sched: seq<Label>, op: Op): nat
    decreases |sched|
  {
    if sched == [] then 0
    else (if sched[0].Begin? && sched[0].op == op then 1 else 0) + Begun(sched[1..], op)
  }

  predicate Owing(t: Thread, op: Op) { t.pc.Count? && t.op == op }

  /** The threads that are about to do the read-modify-write of a kind. */
  function Due(threads: seq<Thread>, op: Op): nat
    decreases |threads|
  {
    if threads == [] then 0
    else (if Owing(threads[0], op) then 1 else 0) + Due(threads[1..], op)
  }

  lemma {:induction false} DueUpdate(threads: seq<Thread>, i: nat, t: Thread, op: Op)
    requires i < |threads|
    ensures Due(threads[i := t], op) + (if Owing(threads[i], op) then 1 else 0)
      == Due(threads, op) + (if Owing(t, op) then 1 else 0)
    decreases i
  {
    if i == 0 {
      assert threads[0 := t][1..] == threads[1..];
    } else {
      assert threads[i := t][1..] == threads[1..][i - 1 := t];
      DueUpdate(threads[1..], i - 1, t, op);
    }
  }

  lemma {:induction false} NoneDue(threads: seq<Thread>, op: Op)
    requires forall t :: t in threads ==> t.pc == Idle
    ensures Due(threads, op) == 0
    decreases |threads|
  {
    if threads != [] {
      assert threads[0] in threads;
      NoneDue(threads[1..], op);
    }
  }

  /** What is due and what is still to begin cannot take the count out of range. */
  predicate InBudget(s: State, sched: seq<Label>) {
    && !s.wrapped
    && s.mem.total + Due(s.threads, BindOp) + Begun(sched, BindOp) < WORD
    && Due(s.threads, UnbindOp) + Begun(sched, UnbindOp) <= s.mem.total
  }

  /** Only the read-modify-write changes the count, and only its thread is due less. */
  lemma StepCounts(c: Config, m: Mem, t: Thread)
    requires t.pc.Count? ==> !t.op.EditOp?
    ensures
      var (m', t') := Step(c, m, t);
      if t.pc.Count? && t.buf == [] then m'.total == Counted(t.op, m.total) && !t'.pc.Count?
      else m'.total == m.total && t'.op == t.op && (t'.pc.Count? <==> t.pc.Count?)
  {
  }

  lemma RunInBudget(c: Config, s: State, i: nat, rest: seq<Label>)
    requires i < |s.threads| && InBudget(s, rest) && (s.threads[i].pc.Count? ==> !s.threads[i].op.EditOp?)
    ensures InBudget(Next(c, s, Run(i)), rest)
  {
    var t := s.threads[i];
    var (m', t') := Step(c, s.mem, t);
    StepCounts(c, s.mem, t);
    DueUpdate(s.threads, i, t', BindOp);
    DueUpdate(s.threads, i, t', UnbindOp);
  }

  lemma DrainInBudget(c: Config, s: State, o: int, i: nat, rest: seq<Label>)
    requires Inv(c, s, o) && i < |s.threads| && InBudget(s, rest)
    ensures InBudget(Next(c, s, Drain(i)), rest)
  {
    var t := s.threads[i];
    var (m', t') := DrainOne(s.mem, t);
    if t.buf != [] {
      assert t.buf[0] in t.buf;
      assert t.buf[0].loc != Total;
    }
    DueUpdate(s.threads, i, t', BindOp);
    DueUpdate(s.threads, i, t', UnbindOp);
  }

  lemma BeginInBudget(c: Config, s: State, i: nat, op: Op, rest: seq<Label>)
    requires i < |s.threads| && InBudget(s, [Begin(i, op)] + rest)
    ensures InBudget(Next(c, s, Begin(i, op)), rest)
  {
    assert ([Begin(i, op)] + rest)[1..] == rest;
    var t := s.threads[i].(op := op, pc := StartPc(op));
    DueUpdate(s.threads, i, t, BindOp);
    DueUpdate(s.threads, i, t, UnbindOp);
  }

  lemma StepInBudget(c: Config, s: State, o: int, a: Label, rest: seq<Label>)
    requires Inv(c, s, o) && InBudget(s, [a] + rest)
    ensures InBudget(Next(c, s, a), rest)
  {
    assert ([a] + rest)[1..] == rest;
    if a.i < |s.threads| {
      match a
      case Begin(i, op) => BeginInBudget(c, s, i, op, rest);
      case Run(i) => RunInBudget(c, s, i, rest);
      case Drain(i) => DrainInBudget(c, s, o, i, rest);
    }
  }

  lemma {:induction false} BudgetKeeps(c: Config, s: State, o: int, sched: seq<Label>)
    requires Inv(c, s, o) && InBudget(s, sched)
    ensures !Exec(c, s, sched).wrapped
    decreases |sched|
  {
    if sched != [] {
      assert sched == [sched[0]] + sched[1..];
      var o' := NextKeeps(c, s, o, sched[0]);
      StepInBudget(c, s, o, sched[0], sched[1..]);
      BudgetKeeps(c, Next(c, s, sched[0]), o', sched[1..]);
    }
  }

  /** What a caller can check beforehand: the binds begun do not take the count past
      32 bits, nor the unbinds below zero.  Then the counter never wraps, whatever the
      order, a wrong flag always has somebody to repair it, and once nobody works on
      the destination the flag is right. */
  lemma BudgetedFlagIsRight(c: Config, s: State, sched: seq<Label>)
    requires c.Ordered() && Initial(s)
    requires s.mem.total + Begun(sched, BindOp) < WORD && Begun(sched, UnbindOp) <= s.mem.total
    ensures
      var e := Exec(c, s, sched);
      && !e.wrapped && RightOrRepaired(e)
      && (Quiescent(e) ==> Right(e.mem.flags, e.mem.u, e.mem.lv, e.mem.total))
  {
    NoneDue(s.threads, BindOp);
    NoneDue(s.threads, UnbindOp);
    StartsGood(c, s);
    BudgetKeeps(c, s, -1, sched);
    QuiescentFlagIsRight(c, s, sched);
    WrongFlagHasRepairer(c, s, sched);
  }

  // ----- one thread alone

  ghost predicate Leads(c: Config, s: State, t: State, binds: nat, unbinds: nat) {
    exists sched: seq<Label> :: Takes(c, s, t, binds, unbinds, sched)
  }

  predicate Takes(c: Config, s: State, t: State, binds: nat, unbinds: nat, sched: seq<Label>) {
    Exec(c, s, sched) == t && Begun(sched, BindOp) == binds && Begun(sched, UnbindOp) == unbinds
  }

  lemma {:induction false} ExecConcat(c: Config, s: State, x: seq<Label>, y: seq<Label>, op: Op)
    ensures Exec(c, s, x + y) == Exec(c, Exec(c, s, x), y)
    ensures Begun(x + y, op) == Begun(x, op) + Begun(y, op)
    decreases |x|
  {
    if x == [] {
      assert x + y == y;
    } else {
      assert (x + y)[1..] == x[1..] + y;
      ExecConcat(c, Next(c, s, x[0]), x[1..], y, op);
    }
  }

  lemma LeadsThrough(c: Config, s: State, t: State, v: State, b1: nat, u1: nat, b2: nat, u2: nat)
    requires Leads(c, s, t, b1, u1) && Leads(c, t, v, b2, u2)
    ensures Leads(c, s, v, b1 + b2, u1 + u2)
  {
    var x: seq<Label> :| Takes(c, s, t, b1, u1, x);
    var y: seq<Label> :| Takes(c, t, v, b2, u2, y);
    ExecConcat(c, s, x, y, BindOp);
    ExecConcat(c, s, x, y, UnbindOp);
    assert Takes(c, s, v, b1 + b2, u1 + u2, x + y);
  }

  lemma LeadsNext(c: Config, s: State, a: Label)
    ensures Leads(c, s, Next(c, s, a),
      if a.Begin? && a.op == BindOp then 1 else 0, if a.Begin? && a.op == UnbindOp then 1 else 0)
  {
    assert [a][1..] == [];
    assert Exec(c, s, [a]) == Exec(c, Next(c, s, a), []);
    assert Begun([a], BindOp) == (if a.Begin? && a.op == BindOp then 1 else 0) + Begun([], BindOp);
    assert Begun([a], UnbindOp) == (if a.Begin? && a.op == UnbindOp then 1 else 0) + Begun([], UnbindOp);
    assert Takes(c, s, Next(c, s, a),
      if a.Begin? && a.op == BindOp then 1 else 0, if a.Begin? && a.op == UnbindOp then 1 else 0, [a]);
  }

  lemma LeadsNowhere(c: Config, s: State)
    ensures Leads(c, s, s, 0, 0)
  {
    assert Takes(c, s, s, 0, 0, []);
  }

  /** s with another memory and another first thread. */
  function With(s: State, m: Mem, t: Thread): State
    requires s.threads != []
  {
    s.(mem := m, threads := s.threads[0 := t])
  }

  /** One instruction of the first thread whose store, if any, drains at once: the
      same on every machine. */
  function Tick(m: Mem, t: Thread): (Mem, Thread) {
    Step(Config(false, false), m, t)
  }

  lemma TickIsStepAndDrain(c: Config, m: Mem, t: Thread)
    requires t.buf == []
    ensures
      var (m1, t1) := Step(c, m, t);
      DrainOne(m1, t1) == Tick(m, t) && Tick(m, t).1.buf == []
  {
    var (m1, t1) := Step(c, m, t);
    assert |t1.buf| <= 1;
    if t1.buf != [] { assert t1.buf[1..] == []; }
  }

  lemma TickLeads(c: Config, s: State)
    requires s.threads != [] && s.threads[0].buf == [] && !s.threads[0].pc.Count?
    ensures
      var (m, t) := Tick(s.mem, s.threads[0]);
      t.buf == [] && Leads(c, s, With(s, m, t), 0, 0)
  {
    var (m, t) := Tick(s.mem, s.threads[0]);
    var s1 := Next(c, s, Run(0));
    TickIsStepAndDrain(c, s.mem, s.threads[0]);
    LeadsNext(c, s, Run(0));
    LeadsNext(c, s1, Drain(0));
    LeadsThrough(c, s, s1, Next(c, s1, Drain(0)), 0, 0, 0, 0);
    assert Next(c, s1, Drain(0)).threads == s.threads[0 := t];
  }

  /** Turns a thread alone needs until it has released the lock. */
  function Turns(pc: Pc): nat {
    match pc
    case CheckU => 12
    case CheckL => 11
    case Acquire => 10
    case PutU => 9
    case PutL => 8
    case PutLv => 7
    case Barrier => 6
    case GetU => 5
    case GetLv(_) => 4
    case GetTotal(_, _) => 3
    case PutFlags(_) => 2
    case Release => 1
    case _ => 0
  }

  predicate Published1(m: Mem, op: Op) { op.EditOp? ==> m.u == op.u && m.l == op.l && m.lv == op.lv }

  /** A thread alone on its way to the release. */
  predicate Alone(m: Mem, t: Thread) {
    && t.buf == [] && WellFormed(t.op) && (m.flags == 0 || m.flags == OVERLOAD)
    && (t.pc.CheckU? || t.pc.CheckL? ==> t.op.EditOp? && t.op.l != m.l)
    && (t.op.EditOp? || m.lv <= m.u)
    && match t.pc
       case Idle => m.lock == 0 && Right(m.flags, m.u, m.lv, m.total) && Published1(m, t.op)
       case CheckU => m.lock == 0
       case CheckL => m.lock == 0
       case Acquire => m.lock == 0
       case PutU => t.op.EditOp?
       case PutL => t.op.EditOp? && m.u == t.op.u
       case PutLv => t.op.EditOp? && m.u == t.op.u && m.l == t.op.l
       case Barrier => Published1(m, t.op)
       case GetU => Published1(m, t.op)
       case GetLv(u) => Published1(m, t.op) && u == m.u > 0
       case GetTotal(u, lv) => Published1(m, t.op) && u == m.u > 0 && lv == m.lv
       case PutFlags(v) =>
         Published1(m, t.op) && Right(v, m.u, m.lv, m.total) && (v == 0 || v == OVERLOAD)
       case Release => Published1(m, t.op) && Right(m.flags, m.u, m.lv, m.total)
       case _ => false
  }

  lemma TickLooks(m: Mem, t: Thread)
    requires Alone(m, t) && (t.pc.CheckU? || t.pc.CheckL? || t.pc.Acquire?)
    ensures
      var (m', t') := Tick(m, t);
      && Alone(m', t') && t'.op == t.op && Turns(t'.pc) < Turns(t.pc) && m'.total == m.total
      && (!t.op.EditOp? ==> m'.u == m.u && m'.lv == m.lv && m'.l == m.l)
  {
  }

  lemma TickPublishes(m: Mem, t: Thread)
    requires Alone(m, t) && Publishing(t.pc)
    ensures
      var (m', t') := Tick(m, t);
      && Alone(m', t') && t'.op == t.op && Turns(t'.pc) < Turns(t.pc) && m'.total == m.total
      && (!t.op.EditOp? ==> m'.u == m.u && m'.lv == m.lv && m'.l == m.l)
  {
  }

  lemma TickReads(m: Mem, t: Thread)
    requires Alone(m, t) && Reading(t.pc)
    ensures
      var (m', t') := Tick(m, t);
      && Alone(m', t') && t'.op == t.op && Turns(t'.pc) < Turns(t.pc) && m'.total == m.total
      && (!t.op.EditOp? ==> m'.u == m.u && m'.lv == m.lv && m'.l == m.l)
  {
  }

  lemma TickAlone(m: Mem, t: Thread)
    requires Alone(m, t) && !t.pc.Idle?
    ensures
      var (m', t') := Tick(m, t);
      && Alone(m', t') && t'.op == t.op && Turns(t'.pc) < Turns(t.pc) && m'.total == m.total
      && (!t.op.EditOp? ==> m'.u == m.u && m'.lv == m.lv && m'.l == m.l)
  {
    if Publishing(t.pc) { TickPublishes(m, t); }
    else if Reading(t.pc) { TickReads(m, t); }
    else if !Inside(t.pc) { TickLooks(m, t); }
  }

  lemma {:induction false} FinishAlone(c: Config, s: State) returns (t: State)
    requires s.threads != [] && Alone(s.mem, s.threads[0])
    ensures Leads(c, s, t, 0, 0) && t == With(s, t.mem, Thread(s.threads[0].op, Idle, []))
    ensures Alone(t.mem, t.threads[0]) && t.mem.total == s.mem.total
    ensures !s.threads[0].op.EditOp? ==> t.mem.u == s.mem.u && t.mem.lv == s.mem.lv
    decreases Turns(s.threads[0].pc)
  {
    if s.threads[0].pc.Idle? {
      LeadsNowhere(c, s);
      assert s.threads[0 := s.threads[0]] == s.threads;
      return s;
    }
    var (m, th) := Tick(s.mem, s.threads[0]);
    TickAlone(s.mem, s.threads[0]);
    TickLeads(c, s);
    t := FinishAlone(c, With(s, m, th));
    LeadsThrough(c, s, With(s, m, th), t, 0, 0, 0, 0);
    assert s.threads[0 := th][0 := t.threads[0]] == s.threads[0 := t.threads[0]];
  }

  /** Nobody works on the destination and its flag is right. */
  predicate Calm(s: State) { Initial(s.(wrapped := false)) && s.threads != [] }

  lemma CalmWith(s: State, m: Mem, t: Thread)
    requires Calm(s) && t.pc == Idle && t.buf == [] && m.total < WORD
    requires Alone(m, t) && m.lv <= m.u
    ensures Calm(With(s, m, t))
  {
    forall x | x in s.threads[0 := t] ensures x.pc == Idle && x.buf == [] { assert x == t || x in s.threads; }
  }

  /** An edit that changes the lower threshold, alone. */
  lemma EditAlone(c: Config, s: State, op: Op) returns (t: State)
    requires Calm(s) && op.EditOp? && op.lv <= op.u && op.l != s.mem.l
    ensures Leads(c, s, t, 0, 0) && Calm(t) && t.wrapped == s.wrapped && |t.threads| == |s.threads|
    ensures t.mem.total == s.mem.total && t.mem.u == op.u && t.mem.lv == op.lv
  {
    var s1 := Next(c, s, Begin(0, op));
    assert s.threads[0] in s.threads;
    LeadsNext(c, s, Begin(0, op));
    t := FinishAlone(c, s1);
    LeadsThrough(c, s, s1, t, 0, 0, 0, 0);
    assert t.threads == s.threads[0 := Thread(op, Idle, [])];
    CalmWith(s, t.mem, Thread(op, Idle, []));
  }

  /** The count itself, alone, and what the thread then compares it with. */
  lemma CountAlone(c: Config, s: State, op: Op) returns (t: State)
    requires Calm(s) && !op.EditOp?
    ensures Leads(c, s, t, if op.BindOp? then 1 else 0, if op.UnbindOp? then 1 else 0)
    ensures
      var total := Counted(op, s.mem.total);
      var hit := if op.BindOp? then total == s.mem.u else s.mem.total == s.mem.lv;
      t == With(s, s.mem.(total := total), Thread(op, if hit then Acquire else Idle, []))
           .(wrapped := s.wrapped || Wraps(op, s.mem.total))
  {
    assert s.threads[0] in s.threads;
    var s1 := Next(c, s, Begin(0, op));
    var s2 := Next(c, s1, Run(0));
    t := Next(c, s2, Run(0));
    LeadsNext(c, s, Begin(0, op));
    LeadsNext(c, s1, Run(0));
    LeadsNext(c, s2, Run(0));
    LeadsThrough(c, s, s1, s2, if op.BindOp? then 1 else 0, if op.UnbindOp? then 1 else 0, 0, 0);
    LeadsThrough(c, s, s2, t, if op.BindOp? then 1 else 0, if op.UnbindOp? then 1 else 0, 0, 0);
    assert t.threads == s.threads[0 := t.threads[0]];
  }

  /** A bind or unbind that does not wrap, alone. */
  lemma OpAlone(c: Config, s: State, op: Op) returns (t: State)
    requires Calm(s) && !op.EditOp? && !Wraps(op, s.mem.total)
    ensures Leads(c, s, t, if op.BindOp? then 1 else 0, if op.UnbindOp? then 1 else 0)
    ensures Calm(t) && t.wrapped == s.wrapped && |t.threads| == |s.threads|
    ensures t.mem.total == Counted(op, s.mem.total) && t.mem.u == s.mem.u && t.mem.lv == s.mem.lv
  {
    var s1 := CountAlone(c, s, op);
    t := FinishAlone(c, s1);
    LeadsThrough(c, s, s1, t, if op.BindOp? then 1 else 0, if op.UnbindOp? then 1 else 0, 0, 0);
    assert t.threads == s.threads[0 := Thread(op, Idle, [])];
    CalmWith(s, t.mem, Thread(op, Idle, []));
  }

  lemma {:induction false} ManyAlone(c: Config, s: State, op: Op, k: nat) returns (t: State)
    requires Calm(s) && (op == BindOp || op == UnbindOp)
    requires if op.BindOp? then s.mem.total + k < WORD else k <= s.mem.total
    ensures Leads(c, s, t, if op.BindOp? then k else 0, if op.UnbindOp? then k else 0)
    ensures Calm(t) && t.wrapped == s.wrapped
    ensures t.mem.u == s.mem.u && t.mem.lv == s.mem.lv
    ensures t.mem.total == if op.BindOp? then s.mem.total + k else s.mem.total - k
    decreases k
  {
    if k == 0 {
      LeadsNowhere(c, s);
      return s;
    }
    var s1 := OpAlone(c, s, op);
    t := ManyAlone(c, s1, op, k - 1);
    LeadsThrough(c, s, s1, t, if op.BindOp? then 1 else 0, if op.UnbindOp? then 1 else 0,
      if op.BindOp? then k - 1 else 0, if op.UnbindOp? then k - 1 else 0);
  }

  /** The operation that wraps the counter misses both thresholds. */
  lemma WrapAlone(c: Config, s: State, op: Op) returns (t: State)
    requires Calm(s) && !op.EditOp? && Wraps(op, s.mem.total) && 0 < s.mem.lv && s.mem.u < WORD
    ensures Leads(c, s, t, if op.BindOp? then 1 else 0, if op.UnbindOp? then 1 else 0)
    ensures Quiescent(t) && t.wrapped && !Right(t.mem.flags, t.mem.u, t.mem.lv, t.mem.total)
  {
    t := CountAlone(c, s, op);
    var th := Thread(op, Idle, []);
    forall x | x in t.threads ensures x.pc == Idle && x.buf == [] { assert x == th || x in s.threads; }
  }

  /** From every calm destination with 0 < lv, as many operations of one kind as take
      the count out of its 32 bits, one after the other, end wrong on every machine. */
  lemma WrappedCountMisleads(c: Config, s: State, op: Op) returns (t: State)
    requires Initial(s) && s.threads != [] && 0 < s.mem.lv && s.mem.u < WORD && (op == BindOp || op == UnbindOp)
    ensures Leads(c, s, t, if op.BindOp? then WORD - s.mem.total else 0, if op.UnbindOp? then s.mem.total + 1 else 0)
    ensures Quiescent(t) && t.wrapped && !Right(t.mem.flags, t.mem.u, t.mem.lv, t.mem.total)
  {
    assert s.(wrapped := false) == s;
    var k := if op.BindOp? then WORD - 1 - s.mem.total else s.mem.total;
    var s1 := ManyAlone(c, s, op, k);
    t := WrapAlone(c, s1, op);
    LeadsThrough(c, s, s1, t, if op.BindOp? then k else 0, if op.UnbindOp? then k else 0,
      if op.BindOp? then 1 else 0, if op.UnbindOp? then 1 else 0);
  }

  ghost predicate SafeWithin(c: Config, s: State, binds: nat, unbinds: nat) {
    forall sched: seq<Label> {:trigger Exec(c, s, sched)} ::
      Begun(sched, BindOp) <= binds && Begun(sched, UnbindOp) <= unbinds && Quiescent(Exec(c, s, sched)) ==>
        var m := Exec(c, s, sched).mem; Right(m.flags, m.u, m.lv, m.total)
  }

  lemma OverBudget(c: Config, s: State, op: Op, binds: nat, unbinds: nat)
    requires Initial(s) && s.threads != [] && (op == BindOp || op == UnbindOp)
    requires if op.BindOp? then s.mem.total + binds >= WORD else unbinds > s.mem.total
    ensures !SafeWithin(c, s, binds, unbinds)
  {
    assert s.(wrapped := false) == s;
    var s1 := EditAlone(c, s, EditOp(1, s.mem.l + 1, 1));
    assert s1.(wrapped := false) == s1;
    var t := WrappedCountMisleads(c, s1, op);
    LeadsThrough(c, s, s1, t, 0, 0,
      if op.BindOp? then WORD - s.mem.total else 0, if op.UnbindOp? then s.mem.total + 1 else 0);
    var sched: seq<Label> :| Takes(c, s, t,
      if op.BindOp? then WORD - s.mem.total else 0, if op.UnbindOp? then s.mem.total + 1 else 0, sched);
  }

  /** The budget is exact: a destination is safe for so many binds and unbinds, among
      any edits, if and only if they cannot take its count out of its 32 bits. */
  lemma BudgetIsExact(c: Config, s: State, binds: nat, unbinds: nat)
    requires c.Ordered() && Initial(s) && s.threads != []
    ensures SafeWithin(c, s, binds, unbinds) <==> s.mem.total + binds < WORD && unbinds <= s.mem.total
  {
    if s.mem.total + binds >= WORD {
      OverBudget(c, s, BindOp, binds, unbinds);
    } else if unbinds > s.mem.total {
      OverBudget(c, s, UnbindOp, binds, unbinds);
    } else {
      forall sched: seq<Label>
        | Begun(sched, BindOp) <= binds && Begun(sched, UnbindOp) <= unbinds && Quiescent(Exec(c, s, sched))
        ensures var m := Exec(c, s, sched).mem; Right(m.flags, m.u, m.lv, m.total)
      {
        BudgetedFlagIsRight(c, s, sched);
      }
    }
  }
}
