/** Once main sets stop, whichever round it left at, everyone returns. */
module PacketStop {
  import opened Prelude
  import opened PacketRace
  import opened PacketBarrier
  import opened PacketRounds

  function WorkerTurns(w: Worker): nat {
    match w.pc
    case AtGuard => 3
    case LoadEpoch => 2
    case LoadStop => 1
    case _ => 0
  }

  function ServerTurns(r: Server): nat {
    match r.pc
    case Poll => 3
    case PutSeen(_) => 2
    case CheckStop => 1
    case Gone => 0
  }

  /** How many of its own steps a thread is from returning after the stop; main's
      are its three joins. */
  function Turns(s: System, who: Who): nat {
    match who
    case TheMain =>
      var pc := s.main.pc;
      if pc.JoinEditor? then 3 else if pc.JoinSender? then 2 else if pc.JoinServer? then 1 else 0
    case TheEditor => WorkerTurns(s.ed)
    case TheSender => WorkerTurns(s.tx)
    case TheServer => ServerTurns(s.rx)
  }

  predicate AllReturned(s: System) { s.ed.pc.Returned? && s.tx.pc.Returned? && s.rx.pc.Gone? }

  /** The server's turns weigh two, for the store each may leave behind. */
  function Left(s: System): nat {
    Turns(s, TheMain) + Turns(s, TheEditor) + Turns(s, TheSender) + 2 * Turns(s, TheServer) + |s.rx.buf|
  }

  predicate Stopped(s: System) {
    && s.mem.stop && Joining(s.main.pc)
    && InStep(s.iterations, s.mem, Edits, s.ed) && !s.ed.pc.Unborn? && s.ed.buf == []
    && InStep(s.iterations, s.mem, Sends, s.tx) && !s.tx.pc.Unborn? && s.tx.buf == []
    && SeenOnly(s.rx.buf) && s.main.buf == []
  }

  lemma MainStops(s: System, a: Answer)
    requires Stopped(s)
    ensures
      var t := MainStep(s, a);
      && t.mem == s.mem && t.ed == s.ed && t.tx == s.tx && t.rx == s.rx
      && (t == s || Turns(t, TheMain) < Turns(s, TheMain))
      && (AllReturned(s) && Turns(s, TheMain) > 0 ==> Turns(t, TheMain) < Turns(s, TheMain))
  {
  }

  lemma ServerStops(m: Shared, wire: set<nat>, r: Server, a: Answer)
    requires m.stop
    ensures
      var q := ServerStep(m, wire, r, a);
      && (q == r || ServerTurns(q) < ServerTurns(r)) && |q.buf| <= |r.buf| + 1
      && (ServerTurns(r) > 0 ==> ServerTurns(q) < ServerTurns(r)) && (r.pc.Gone? ==> q == r)
  {
  }

  lemma EditorStops(s: System, a: Answer)
    requires Stopped(s)
    ensures
      var t := Next(s, Run(TheEditor, a));
      && t == s.(ed := t.ed) && (t == s || WorkerTurns(t.ed) < WorkerTurns(s.ed))
      && (WorkerTurns(s.ed) > 0 ==> t != s) && (s.ed.pc.Returned? ==> t == s)
  {
  }

  lemma SenderStops(s: System, a: Answer)
    requires Stopped(s)
    ensures
      var t := Next(s, Run(TheSender, a));
      && t == s.(tx := t.tx) && (t == s || WorkerTurns(t.tx) < WorkerTurns(s.tx))
      && (WorkerTurns(s.tx) > 0 ==> t != s) && (s.tx.pc.Returned? ==> t == s)
  {
  }

  /** After the stop every step of every thread, and every drain, makes what is left
      smaller or changes nothing; stop stays. */
  lemma StopDecreases(s: System, e: Label)
    requires Barrier(s) && s.mem.stop
    ensures Next(s, e) == s || Left(Next(s, e)) < Left(s)
    ensures Next(s, e).mem.stop
  {
    match e
    case Run(TheMain, a) => MainStops(s, a);
    case Run(TheEditor, a) => EditorStops(s, a);
    case Run(TheSender, a) => SenderStops(s, a);
    case Run(TheServer, a) => ServerStops(s.mem, s.wire, s.rx, a);
    case Drain(_) =>
  }

  lemma TurnWinds(s: System, e: Label, who: Who)
    requires Barrier(s) && s.mem.stop
    ensures Turns(Next(s, e), who) <= Turns(s, who)
    ensures
      e.Run? && e.who == who && Turns(s, who) > 0 && (who.TheMain? ==> AllReturned(s)) ==>
      Turns(Next(s, e), who) < Turns(s, who)
    ensures Next(s, e).mem.stop && (AllReturned(s) ==> AllReturned(Next(s, e)))
  {
    match e
    case Run(TheMain, a) => MainStops(s, a);
    case Run(TheEditor, a) => EditorStops(s, a);
    case Run(TheSender, a) => SenderStops(s, a);
    case Run(TheServer, a) => ServerStops(s.mem, s.wire, s.rx, a);
    case Drain(_) =>
  }

  /** The steps a schedule gives a thread. */
  function Taken(run: seq<Label>, who: Who): nat
    decreases |run|
  {
    if run == [] then 0
    else (if run[0].Run? && run[0].who == who then 1 else 0) + Taken(run[1..], who)
  }

  lemma {:induction false} RunWinds(s: System, run: seq<Label>, who: Who)
    requires Barrier(s) && s.mem.stop && (who.TheMain? ==> AllReturned(s))
    ensures
      var t := Exec(s, run);
      && Barrier(t) && t.mem.stop && (AllReturned(s) ==> AllReturned(t))
      && (Turns(t, who) == 0 || Turns(t, who) + Taken(run, who) <= Turns(s, who))
    decreases |run|
  {
    if run != [] {
      NextKeeps(s, run[0]);
      TurnWinds(s, run[0], who);
      RunWinds(Next(s, run[0]), run[1..], who);
    }
  }

  lemma {:induction false} ExecAppend(s: System, x: seq<Label>, y: seq<Label>)
    ensures Exec(s, x + y) == Exec(Exec(s, x), y)
    decreases |x|
  {
    if x == [] {
      assert x + y == y;
    } else {
      assert (x + y)[1..] == x[1..] + y;
      ExecAppend(Next(s, x[0]), x[1..], y);
    }
  }

  /** No turns left is having returned. */
  lemma WindsDown(s: System)
    requires Barrier(s) && s.mem.stop
    ensures Turns(s, TheEditor) == Turns(s, TheSender) == Turns(s, TheServer) == 0 <==> AllReturned(s)
    ensures Turns(s, TheMain) == 0 <==> s.main.pc.Done?
  {
  }

  lemma WorkersReturn(s: System, wind: seq<Label>)
    requires Barrier(s) && s.mem.stop
    requires Taken(wind, TheEditor) >= 3 && Taken(wind, TheSender) >= 3 && Taken(wind, TheServer) >= 3
    ensures Barrier(Exec(s, wind)) && Exec(s, wind).mem.stop && AllReturned(Exec(s, wind))
  {
    RunWinds(s, wind, TheEditor);
    RunWinds(s, wind, TheSender);
    RunWinds(s, wind, TheServer);
    WindsDown(Exec(s, wind));
  }

  lemma MainJoins(s: System, join: seq<Label>)
    requires Barrier(s) && s.mem.stop && AllReturned(s) && Taken(join, TheMain) >= 3
    ensures Exec(s, join).main.pc.Done?
  {
    RunWinds(s, join, TheMain);
    WindsDown(Exec(s, join));
  }

  /** From any state with stop set that any 32-bit count reaches: once each worker has
      had three steps it has returned, and after three more of its own main is done. */
  lemma StoppedRunEnds(iterations: nat, run: seq<Label>, wind: seq<Label>, join: seq<Label>)
    requires iterations < WORD && Exec(Boot(iterations), run).mem.stop
    requires Taken(wind, TheEditor) >= 3 && Taken(wind, TheSender) >= 3 && Taken(wind, TheServer) >= 3
    requires Taken(join, TheMain) >= 3
    ensures AllReturned(Exec(Boot(iterations), run + wind))
    ensures Exec(Boot(iterations), run + wind + join).main.pc.Done?
  {
    RunSound(iterations, run);
    var s := Exec(Boot(iterations), run);
    ExecAppend(Boot(iterations), run, wind);
    WorkersReturn(s, wind);
    ExecAppend(Boot(iterations), run + wind, join);
    MainJoins(Exec(s, wind), join);
  }
}
