/** The fence is needed: runs that lose a transition, and a wrapped counter. */
module OverloadMiss {
  import opened Prelude
  import opened StoreBuffer
  import opened OverloadFlag
  import opened OverloadSafety
  import opened OverloadBudget
  import opened OverloadHarness
  import opened OverloadRounds
  import opened OverloadDuel

  // ----- any destination

  function Arena(p: Pair): State { State(p.mem, [p.e, p.b], false) }

  /** The counting thread has not wrapped the counter and cannot any more. */
  predicate Tame(p: Pair) {
    && (p.b.pc.Count? ==> !Wraps(p.b.op, p.mem.total))
    && !p.e.pc.Count? && Free(p.e.buf, Total)
  }

  lemma ActStaysTame(c: Config, p: Pair, v: Move)
    requires Tame(p)
    ensures Tame(Act(c, p, v))
  {
    if v.EditDrains? && p.e.buf != [] { assert p.e.buf[0] in p.e.buf; }
  }

  lemma {:induction false} DuelInTheOpen(c: Config, p: Pair, moves: seq<Move>) returns (sched: seq<Label>)
    requires Tame(p)
    ensures Exec(c, Arena(p), sched) == Arena(Duel(c, p, moves))
    ensures Begun(sched, BindOp) == Begun(sched, UnbindOp) == 0
    ensures forall i :: 0 <= i < |sched| ==> !sched[i].Begin?
    decreases |moves|
  {
    sched := [];
    if moves != [] {
      var q := Act(c, p, moves[0]);
      ActStaysTame(c, p, moves[0]);
      var rest := DuelInTheOpen(c, q, moves[1..]);
      var a := match moves[0] { case EditRuns => Run(0) case BindRuns => Run(1) case EditDrains => Drain(0) };
      assert Next(c, Arena(p), a).threads == Arena(q).threads;
      sched := [a] + rest;
    }
  }

  lemma BegunPair(a: Label, b: Label, op: Op)
    ensures Begun([a, b], op)
      == (if a.Begin? && a.op == op then 1 else 0) + (if b.Begin? && b.op == op then 1 else 0)
  {
    assert [a, b][1..] == [b] && [b][1..] == [];
    assert Begun([b], op) == (if b.Begin? && b.op == op then 1 else 0) + Begun([], op);
  }

  /** Every overlooked transition of every destination is lost in some run. */
  lemma UnfencedEditLoses(c: Config, m: Mem, edit: Op, count: Op) returns (sched: seq<Label>)
    requires !c.Ordered() && Overlooked(m, edit, count)
    ensures
      var idle := Thread(BindOp, Idle, []);
      var e := Exec(c, State(m.(lock := 0), [idle, idle], false), sched);
      && Quiescent(e) && !e.wrapped && !Right(e.mem.flags, e.mem.u, e.mem.lv, e.mem.total)
      && e.mem == Lost(m.(lock := 0), edit, count)
    ensures Begun(sched, BindOp) == if count.BindOp? then 1 else 0
    ensures Begun(sched, UnbindOp) == if count.UnbindOp? then 1 else 0
  {
    var m0 := m.(lock := 0);
    var idle := Thread(BindOp, Idle, []);
    var s := State(m0, [idle, idle], false);
    var p := Pair(m0, Thread(edit, CheckU, []), Thread(count, Count, []));
    var begin := [Begin(0, edit), Begin(1, count)];
    assert Exec(c, s, begin) == Arena(p) by {
      var s1 := Next(c, s, Begin(0, edit));
      assert s1 == State(m0, [p.e, idle], false);
      assert Next(c, s1, Begin(1, count)) == Arena(p);
      assert begin[1..] == [Begin(1, count)] && begin[1..][1..] == [];
      assert Exec(c, s1, [Begin(1, count)]) == Exec(c, Arena(p), []);
    }
    BegunPair(begin[0], begin[1], BindOp);
    BegunPair(begin[0], begin[1], UnbindOp);
    var moves := DuelMisses(c, p);
    var rest := DuelInTheOpen(c, p, moves);
    ExecConcat(c, s, begin, rest, BindOp);
    ExecConcat(c, s, begin, rest, UnbindOp);
    sched := begin + rest;
  }

  ghost predicate NeverLoses(c: Config) {
    forall s: State, sched: seq<Label> {:trigger Exec(c, s, sched)} ::
      Initial(s) && Quiescent(Exec(c, s, sched)) && !Exec(c, s, sched).wrapped ==>
        var m := Exec(c, s, sched).mem; Right(m.flags, m.u, m.lv, m.total)
  }

  /** The same with a condition on the schedule that can be checked beforehand. */
  ghost predicate NeverLosesWithin(c: Config) {
    forall s: State, sched: seq<Label> {:trigger Exec(c, s, sched)} ::
      Initial(s) && s.mem.total + Begun(sched, BindOp) < WORD && Begun(sched, UnbindOp) <= s.mem.total
      && Quiescent(Exec(c, s, sched)) ==>
        var m := Exec(c, s, sched).mem; Right(m.flags, m.u, m.lv, m.total)
  }

  /** No transition is ever lost exactly when the fence is there or stores are
      not buffered. */
  lemma SafeIffOrdered(c: Config)
    ensures NeverLoses(c) <==> c.Ordered()
    ensures NeverLosesWithin(c) <==> c.Ordered()
  {
    if c.Ordered() {
      OrderedNeverLoses(c);
    } else {
      var m := Mem(0, 99, 200, 0, 150, 0, 0, 0, 0);
      var idle := Thread(BindOp, Idle, []);
      var s := State(m, [idle, idle], false);
      var sched := UnfencedEditLoses(c, m, EditOp(100, 0, 75), BindOp);
      assert Initial(s);
    }
  }

  lemma OrderedNeverLoses(c: Config)
    requires c.Ordered()
    ensures NeverLoses(c) && NeverLosesWithin(c)
  {
    forall s: State, sched: seq<Label> | Initial(s) && Quiescent(Exec(c, s, sched)) && !Exec(c, s, sched).wrapped
      ensures var m := Exec(c, s, sched).mem; Right(m.flags, m.u, m.lv, m.total)
    {
      QuiescentFlagIsRight(c, s, sched);
    }
    forall s: State, sched: seq<Label>
      | Initial(s) && s.mem.total + Begun(sched, BindOp) < WORD && Begun(sched, UnbindOp) <= s.mem.total
        && Quiescent(Exec(c, s, sched))
      ensures var m := Exec(c, s, sched).mem; Right(m.flags, m.u, m.lv, m.total)
    {
      BudgetedFlagIsRight(c, s, sched);
    }
  }

  // ----- the program

  lemma {:induction false} PlayAppend(h: Setup, s: System, x: seq<Choice>, y: seq<Choice>)
    ensures Play(h, s, x + y) == Play(h, Play(h, s, x), y)
    decreases |x|
  {
    if x == [] {
      assert x + y == y;
    } else {
      assert (x + y)[1..] == x[1..] + y;
      PlayAppend(h, Choose(h, s, x[0]), x[1..], y);
    }
  }

  lemma PlayMore(h: Setup, s: System, x: seq<Choice>, a: Choice)
    ensures Play(h, s, x + [a]) == Choose(h, Play(h, s, x), a)
  {
    PlayAppend(h, s, x, [a]);
    assert [a][1..] == [];
  }

  function Ring(s: System): Pair { Pair(s.mem, s.e.th, s.b.th) }

  function Fought(s: System, p: Pair): System {
    s.(mem := p.mem, e := s.e.(th := p.e), b := s.b.(th := p.b))
  }

  lemma {:induction false} DuelInTheRound(h: Setup, s: System, moves: seq<Move>) returns (choices: seq<Choice>)
    requires !s.b.waiting && !s.e.waiting
    ensures Play(h, s, choices) == Fought(s, Duel(h.c, Ring(s), moves))
    decreases |moves|
  {
    choices := [];
    if moves != [] {
      var s' := Fought(s, Act(h.c, Ring(s), moves[0]));
      var rest := DuelInTheRound(h, s', moves[1..]);
      if s' != s {
        var a := match moves[0] { case EditRuns => RunEdit case BindRuns => RunBind case EditDrains => DrainEdit };
        assert Choose(h, s, a) == s';
        choices := [a] + rest;
      } else {
        choices := rest;
      }
    }
  }

  /** Main about to start round n, everything drained. */
  predicate AtRound(s: System, n: nat) {
    && s.main == Main(n, PutTotal, s.main.misses, [])
    && Resting(s.b, n) && Resting(s.e, n)
    && s.mem.lock == 0 && s.mem.epoch == n && s.mem.doneBind == n && s.mem.doneEdit == n
  }

  function Prepared(h: Setup, m: Mem, n: nat): Mem {
    m.(total := h.Total0(), u := h.U0(), l := h.L0(), lv := h.Lv0(), flags := h.Flags0(), epoch := n + 1)
  }

  lemma MainResets(h: Setup, s: System, n: nat) returns (choices: seq<Choice>)
    requires h.c.tso && AtRound(s, n) && n < h.iterations
    ensures Play(h, s, choices) == s.(mem := Prepared(h, s.mem, n), main := s.main.(pc := AwaitBind))
  {
    choices := [];
    var t := s;
    var i := 0;
    while i < 6
      invariant i <= 6 && Play(h, s, choices) == t
      invariant t == s.(mem := t.mem, main := s.main.(
        pc := [PutTotal, PutU0, PutL0, PutLv0, PutFlags0, PutEpoch, AwaitBind][i]))
      invariant t.mem == ResetTo(h, s.mem, n, i)
    {
      PlayMore(h, s, choices, RunMain);
      choices := choices + [RunMain];
      t := Choose(h, t, RunMain);
      PlayMore(h, s, choices, DrainMain);
      choices := choices + [DrainMain];
      t := Choose(h, t, DrainMain);
      i := i + 1;
    }
  }

  function ResetTo(h: Setup, m: Mem, n: nat, i: nat): Mem {
    if i == 0 then m
    else if i == 1 then m.(total := h.Total0())
    else if i == 2 then m.(total := h.Total0(), u := h.U0())
    else if i == 3 then m.(total := h.Total0(), u := h.U0(), l := h.L0())
    else if i == 4 then m.(total := h.Total0(), u := h.U0(), l := h.L0(), lv := h.Lv0())
    else if i == 5 then m.(total := h.Total0(), u := h.U0(), l := h.L0(), lv := h.Lv0(), flags := h.Flags0())
    else Prepared(h, m, n)
  }

  /** Both workers report, main inspects, and the flag is the wrong one. */
  lemma RoundCloses(h: Setup, s: System, n: nat) returns (choices: seq<Choice>)
    requires h.c.tso && s.main == Main(n, AwaitBind, s.main.misses, [])
    requires s.b == Worker(n, false, Thread(s.b.th.op, Idle, []))
    requires s.e == Worker(n, false, Thread(s.e.th.op, Idle, []))
    requires s.mem.lock == 0 && s.mem.epoch == n + 1 && s.mem.doneBind == n && s.mem.doneEdit == n
    requires s.mem.flags != h.Expected()
    ensures
      var t := Play(h, s, choices);
      AtRound(t, n + 1) && t.main.misses == s.main.misses + 1
  {
    var todo := [RunBind, DrainBind, RunEdit, DrainEdit, RunMain, RunMain, RunMain];
    choices := [];
    var t := s;
    var i := 0;
    while i < 7
      invariant i <= 7 && Play(h, s, choices) == t && t == Closing(s, n, i)
    {
      PlayMore(h, s, choices, todo[i]);
      choices := choices + [todo[i]];
      t := Choose(h, t, todo[i]);
      i := i + 1;
    }
  }

  /** The states a missed round passes through on its way to the next one. */
  function Closing(s: System, n: nat, i: nat): System {
    var b :=
      if i == 0 then s.b
      else Worker(n + 1, true, s.b.th.(buf := if i == 1 then [Write(DoneBind, n + 1)] else []));
    var e :=
      if i <= 2 then s.e
      else Worker(n + 1, true, s.e.th.(buf := if i == 3 then [Write(DoneEdit, n + 1)] else []));
    var main :=
      if i <= 4 then s.main
      else if i == 5 then s.main.(pc := AwaitEdit)
      else if i == 6 then s.main.(pc := Inspect)
      else Main(n + 1, PutTotal, s.main.misses + 1, s.main.buf);
    System(s.mem.(doneBind := if i >= 2 then n + 1 else s.mem.doneBind,
                  doneEdit := if i >= 4 then n + 1 else s.mem.doneEdit), main, b, e)
  }

  lemma RoundMisses(h: Setup, s: System, n: nat) returns (choices: seq<Choice>)
    requires !h.c.Ordered() && AtRound(s, n) && n < h.iterations
    ensures
      var t := Play(h, s, choices);
      AtRound(t, n + 1) && t.main.misses == s.main.misses + 1
  {
    choices := MainResets(h, s, n);
    var t := s.(mem := Prepared(h, s.mem, n), main := s.main.(pc := AwaitBind));
    PlayMore(h, s, choices, RunBind);
    choices := choices + [RunBind];
    t := Choose(h, t, RunBind);
    PlayMore(h, s, choices, RunEdit);
    choices := choices + [RunEdit];
    t := Choose(h, t, RunEdit);
    assert Overlooked(t.mem, t.e.th.op, t.b.th.op);
    var moves := DuelMisses(h.c, Ring(t));
    var fight := DuelInTheRound(h, t, moves);
    PlayAppend(h, s, choices, fight);
    choices := choices + fight;
    t := Fought(t, Duel(h.c, Ring(t), moves));
    var close := RoundCloses(h, t, n);
    PlayAppend(h, s, choices, close);
    choices := choices + close;
  }

  /** Without the fence some run misses every single round. */
  lemma UnfencedRunMissesEveryRound(h: Setup) returns (choices: seq<Choice>)
    requires !h.c.Ordered()
    ensures var s := Play(h, Boot(), choices); Finished(h, s) && s.main.misses == h.iterations
  {
    choices := [];
    var n := 0;
    while n < h.iterations
      invariant n <= h.iterations
      invariant AtRound(Play(h, Boot(), choices), n) && Play(h, Boot(), choices).main.misses == n
    {
      var more := RoundMisses(h, Play(h, Boot(), choices), n);
      PlayAppend(h, Boot(), choices, more);
      choices := choices + more;
      n := n + 1;
    }
  }

  ghost predicate NeverMisses(h: Setup) {
    forall choices: seq<Choice> :: Play(h, Boot(), choices).main.misses == 0
  }

  /** The program can count a miss exactly when it runs a round without the
      fence on a machine with store buffers. */
  lemma NoMissIffOrdered(h: Setup)
    ensures NeverMisses(h) <==> h.c.Ordered() || h.iterations == 0
  {
    if h.c.Ordered() {
      forall choices: seq<Choice> ensures Play(h, Boot(), choices).main.misses == 0 {
        FencedRunsNeverMiss(h, choices);
      }
    } else {
      var choices := UnfencedRunMissesEveryRound(h);
      if h.iterations == 0 {
        forall choices: seq<Choice> ensures Play(h, Boot(), choices).main.misses == 0 {
          NoRoundsStays(h, choices);
        }
      }
    }
  }

  lemma {:induction false} NoRoundsStays(h: Setup, choices: seq<Choice>)
    requires h.iterations == 0
    ensures Play(h, Boot(), choices) == Boot()
    decreases |choices|
  {
    if choices != [] {
      assert Choose(h, Boot(), choices[0]) == Boot();
      NoRoundsStays(h, choices[1..]);
    }
  }
}
