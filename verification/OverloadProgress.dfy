/** The program never gets stuck: from every state it can reach, on any machine, it can
    go on to its end. */
module OverloadProgress {
  import opened StoreBuffer
  import opened OverloadFlag
  import opened OverloadSafety
  import opened OverloadHarness
  import opened OverloadRounds
  import opened OverloadMiss

  // ----- what is left to do

  /** Steps of a thread until it is idle again, if nothing holds it up. */
  function StepsLeft(pc: Pc): nat {
    match pc
    case Idle => 0
    case Count => 14
    case Compare(_) => 13
    case CheckU => 12
    case CheckL => 11
    case Acquire => 10
    case PutU => 9
    case PutL => 8
    case PutLv => 7
    case Barrier => 6
    case GetU => 5
    case GetLv(_) => 4
    case GetTotal(_, _) => 3
    case PutFlags(_) => 2
    case Release => 1
  }

  function WorkerLeft(iterations: nat, w: Worker): nat {
    if w.n >= iterations then 0
    else 16 * (iterations - w.n - 1) + if w.waiting then 16 else 1 + StepsLeft(w.th.pc)
  }

  function Place(pc: MainPc): nat {
    match pc
    case PutTotal => 9
    case PutU0 => 8
    case PutL0 => 7
    case PutLv0 => 6
    case PutFlags0 => 5
    case PutEpoch => 4
    case AwaitBind => 3
    case AwaitEdit => 2
    case Inspect => 1
  }

  function MainLeft(iterations: nat, m: Main): nat {
    if m.n >= iterations then 0 else 10 * (iterations - m.n - 1) + Place(m.pc)
  }

  /** Every step weighs two, for the store it may leave behind. */
  function Left(h: Setup, s: System): nat {
    2 * (MainLeft(h.iterations, s.main) + WorkerLeft(h.iterations, s.b) + WorkerLeft(h.iterations, s.e))
    + |s.main.buf| + |s.b.th.buf| + |s.e.th.buf|
  }

  predicate Drained(s: System) { s.main.buf == [] && s.b.th.buf == [] && s.e.th.buf == [] }

  lemma DrainAdvances(h: Setup, s: System) returns (a: Choice)
    requires !Drained(s)
    ensures Left(h, Choose(h, s, a)) < Left(h, s)
  {
    a := if s.main.buf != [] then DrainMain else if s.b.th.buf != [] then DrainBind else DrainEdit;
  }

  // ----- a thread that is not held up

  /** A worker that neither spins on the epoch nor on the lock. */
  predicate Unheld(iterations: nat, m: Mem, w: Worker) {
    && w.n < iterations && w.th.buf == []
    && if w.waiting then m.epoch >= w.n + 1 else w.th.pc.Acquire? ==> m.lock == 0
  }

  lemma WorkerAdvances(h: Setup, m: Mem, w: Worker, op: Op, done: Loc)
    requires Unheld(h.iterations, m, w)
    ensures
      var (m', w') := WorkerStep(h, m, w, op, done);
      2 * WorkerLeft(h.iterations, w') + |w'.th.buf| < 2 * WorkerLeft(h.iterations, w)
  {
  }

  lemma ResetAdvances(h: Setup, s: System)
    requires s.main.n < h.iterations && Place(s.main.pc) >= 4
    ensures Left(h, Choose(h, s, RunMain)) < Left(h, s)
  {
  }

  lemma MainAdvances(h: Setup, s: System)
    requires Books(h, s) && Drained(s) && s.b.n == s.e.n == s.main.n + 1
    ensures Left(h, Choose(h, s, RunMain)) < Left(h, s)
  {
  }

  /** Whoever is held up by the lock is held up by the other worker, who is not. */
  lemma OneIsFree(h: Setup, s: System, o: int)
    requires WorkPhase(h, s, o) && Drained(s) && !(s.b.n == s.e.n == s.main.n + 1)
    ensures Unheld(h.iterations, s.mem, s.b) || Unheld(h.iterations, s.mem, s.e)
  {
    assert ThreadOk(h.c, s.mem, Both(s).threads[0], 0 == o) && ThreadOk(h.c, s.mem, Both(s).threads[1], 1 == o);
  }

  lemma Advances(h: Setup, s: System, o: int) returns (a: Choice)
    requires Good(h, s, o) && !Finished(h, s)
    ensures Left(h, Choose(h, s, a)) < Left(h, s)
  {
    if !Drained(s) {
      a := DrainAdvances(h, s);
    } else if ResetPhase(h, s) {
      ResetAdvances(h, s);
      a := RunMain;
    } else if s.b.n == s.e.n == s.main.n + 1 {
      MainAdvances(h, s);
      a := RunMain;
    } else {
      OneIsFree(h, s, o);
      if Unheld(h.iterations, s.mem, s.b) {
        WorkerAdvances(h, s.mem, s.b, h.Count(), DoneBind);
        a := RunBind;
      } else {
        WorkerAdvances(h, s.mem, s.e, h.Edit(), DoneEdit);
        a := RunEdit;
      }
    }
  }

  lemma {:induction false} GoesOn(h: Setup, s: System, o: int) returns (more: seq<Choice>)
    requires Good(h, s, o)
    ensures Finished(h, Play(h, s, more))
    decreases Left(h, s)
  {
    more := [];
    if !Finished(h, s) {
      var a := Advances(h, s, o);
      var o' := ChooseKeeps(h, s, o, a);
      var rest := GoesOn(h, Choose(h, s, a), o');
      more := [a] + rest;
    }
  }

  lemma BootIsGood(h: Setup)
    ensures Good(h, Boot(), -1)
  {
  }

  /** Neither the lock nor the barrier can deadlock: fenced or not, on any machine, after
      any choices some more choices finish all the rounds. */
  lemma CanAlwaysFinish(h: Setup, choices: seq<Choice>) returns (more: seq<Choice>)
    ensures Finished(h, Play(h, Boot(), choices + more))
  {
    BootIsGood(h);
    var o := PlayKeeps(h, Boot(), -1, choices);
    more := GoesOn(h, Play(h, Boot(), choices), o);
    PlayAppend(h, Boot(), choices, more);
  }
}
