/** The rounds of the packet race, for every iteration count: each worker makes one
    call a round, each round main judges had both succeed, and the threshold is never
    rearmed during an edit. */
module PacketRounds {
  import opened Prelude
  import opened PacketRace
  import opened PacketBarrier

  /** The miss counter: at most one, and then the round is being left. */
  predicate Missing(s: System) {
    var pc := s.main.pc;
    && s.main.misses <= 1
    && (pc.SendProbe? || pc.AwaitProbe? ==> s.main.misses == 1)
    && (s.main.misses == 1 ==> pc.SendProbe? || pc.AwaitProbe? || pc.PutStop? || Joining(pc) || pc.Died?)
  }

  /** completed is the round main is in, or the one before. */
  predicate Count(s: System) {
    var n, pc, c, over := s.main.n, s.main.pc, s.main.completed, s.main.misses == 1;
    if pc.Confirm? || pc.SendProbe? || pc.AwaitProbe? then c == n
    else if pc.PutStop? || Joining(pc) then
      if over then c == n && n <= s.iterations else c == Prev(n) && n == s.iterations + 1
    else if pc.Died? then c == Prev(n) || (c == n == s.mem.epoch)
    else c == Prev(n)
  }

  /** Main has found the round in memory free of errors. */
  predicate Settled(s: System) {
    var pc := s.main.pc;
    if pc.Died? then s.mem.epoch != s.main.n || s.main.completed == s.main.n
    else !pc.Errors? && !pc.WaitSent? && !(pc.WaitEdited? && s.main.buf == [])
  }

  /** Calls that main has looked at, or will not look at any more, succeeded. */
  predicate Fine(s: System, calls: seq<Report>) {
    forall i :: 0 <= i < |calls| && (i + 1 < Rounds(s.mem, s.ed) || Settled(s)) ==> calls[i].err == 0
  }

  predicate AllFine(calls: seq<Report>) { forall i :: 0 <= i < |calls| ==> calls[i].err == 0 }

  /** The editor has made this round's call. */
  predicate HasEdited(s: System) {
    s.mem.epoch == s.main.n && (s.ed.n != s.main.n || Reporting(s.ed.pc)) && s.ed.calls != []
  }

  predicate Threshold(s: System) {
    var pc := s.main.pc;
    pc.Initial? || pc.PutEpoch? || pc.WaitEdited? || pc.WaitSent? || Judging(pc) ==>
      s.upper == if HasEdited(s) && Last(s.ed).err == 0 then 1 else 2
  }

  lemma MissingMain(s: System, a: Answer)
    requires Missing(s) && !s.main.pc.Died?
    ensures Missing(MainStep(s, a))
  {
  }

  lemma MissingKeeps(s: System, e: Label)
    requires Missing(s)
    ensures Missing(Next(s, e))
  {
    if !s.main.pc.Died? && e.Run? && e.who.TheMain? { MissingMain(s, e.a); }
  }

  lemma CountJudging(s: System, a: Answer)
    requires MainPlaced(s) && Missing(s) && Count(s) && Judging(s.main.pc) && s.iterations < WORD
    ensures Count(MainStep(s, a))
  {
  }

  lemma CountLooping(s: System, a: Answer)
    requires MainPlaced(s) && Count(s) && s.main.misses == 0
    requires s.main.pc.Guard? || Arming(s.main.pc) || s.main.pc.WaitEdited? || s.main.pc.WaitSent?
    ensures Count(MainStep(s, a))
  {
  }

  lemma CountElsewhere(s: System, a: Answer)
    requires MainPlaced(s) && Count(s) && (Booting(s.main.pc) || s.main.pc.PutStop? || Joining(s.main.pc))
    ensures Count(MainStep(s, a))
  {
  }

  lemma CountKeeps(s: System, e: Label)
    requires Barrier(s) && Missing(s) && Count(s)
    ensures Count(Next(s, e))
  {
    if !s.main.pc.Died? && e.Run? && e.who.TheMain? {
      var pc := s.main.pc;
      if Judging(pc) { CountJudging(s, e.a); }
      else if Booting(pc) || pc.PutStop? || Joining(pc) { CountElsewhere(s, e.a); }
      else { CountLooping(s, e.a); }
    }
  }

  lemma ThresholdJudging(s: System, a: Answer)
    requires MainPlaced(s) && Threshold(s) && Judging(s.main.pc)
    ensures Threshold(MainStep(s, a))
  {
  }

  lemma ThresholdElsewhere(s: System, a: Answer)
    requires MainPlaced(s) && Threshold(s) && !s.main.pc.Died? && !Judging(s.main.pc)
    ensures Threshold(MainStep(s, a))
  {
  }

  /** The call that lowers the threshold is the one the editor owes this round. */
  lemma ThresholdEditor(s: System, a: Answer)
    requires InStep(s.iterations, s.mem, Edits, s.ed) && MainPlaced(s) && Threshold(s) && !s.main.pc.Died?
    ensures Threshold(Next(s, Run(TheEditor, a)))
  {
  }

  lemma ThresholdEpoch(s: System)
    requires Barrier(s) && Threshold(s) && !s.main.pc.Died?
    ensures Threshold(Next(s, Drain(TheMain)))
  {
  }

  lemma ThresholdUntouched(s: System, e: Label)
    requires Threshold(s) && SeenOnly(s.rx.buf) && !s.main.pc.Died?
    requires !e.who.TheMain? && !(e.Run? && e.who.TheEditor?)
    requires InStep(s.iterations, s.mem, Edits, s.ed) && InStep(s.iterations, s.mem, Sends, s.tx)
    ensures Threshold(Next(s, e))
  {
  }

  lemma ThresholdKeeps(s: System, e: Label)
    requires Barrier(s) && Threshold(s)
    ensures Threshold(Next(s, e))
  {
    if !s.main.pc.Died? {
      match e
      case Run(TheMain, a) => if Judging(s.main.pc) { ThresholdJudging(s, a); } else { ThresholdElsewhere(s, a); }
      case Run(TheEditor, a) => ThresholdEditor(s, a);
      case Drain(TheMain) => ThresholdEpoch(s);
      case _ => ThresholdUntouched(s, e);
    }
  }

  /** Main finds no error number exactly when both calls of this round succeeded: the
      error stores drained before the reports. */
  lemma ErrorsTell(s: System)
    requires Barrier(s) && s.main.pc.Errors?
    ensures s.ed.calls != [] && s.tx.calls != []
    ensures Last(s.ed).round == Last(s.tx).round == s.main.n
    ensures s.mem.editError == Last(s.ed).err && s.mem.sendError == Last(s.tx).err
  {
  }

  // ----- errors

  predicate FineBoth(s: System) { Fine(s, s.ed.calls) && Fine(s, s.tx.calls) }

  /** A step of main makes no call, and settles a round only by finding no error. */
  lemma MainSettles(s: System, a: Answer)
    requires MainPlaced(s) && Count(s) && !s.main.pc.Died?
    ensures
      var t := MainStep(s, a);
      && t.ed.calls == s.ed.calls && t.tx.calls == s.tx.calls && Rounds(t.mem, t.ed) == Rounds(s.mem, s.ed)
      && (Settled(t) ==>
            Settled(s) || (s.main.pc.Errors? && s.mem.editError == 0 && s.mem.sendError == 0))
  {
  }

  lemma FineMain(s: System, a: Answer)
    requires Barrier(s) && Count(s) && FineBoth(s) && !s.main.pc.Died?
    ensures FineBoth(MainStep(s, a))
  {
    MainSettles(s, a);
    if s.main.pc.Errors? { ErrorsTell(s); }
  }

  /** A new call is this round's, which main cannot have settled. */
  lemma FineEditor(s: System, a: Answer)
    requires Barrier(s) && FineBoth(s) && !s.main.pc.Died?
    ensures FineBoth(Next(s, Run(TheEditor, a)))
  {
    WorkerKeeps(s.iterations, s.mem, Edits, s.ed, a);
  }

  lemma FineSender(s: System, a: Answer)
    requires Barrier(s) && FineBoth(s) && !s.main.pc.Died?
    ensures FineBoth(Next(s, Run(TheSender, a)))
  {
    WorkerKeeps(s.iterations, s.mem, Sends, s.tx, a);
  }

  lemma FineDrain(s: System, who: Who)
    requires Barrier(s) && Barrier(Next(s, Drain(who))) && FineBoth(s) && !s.main.pc.Died?
    ensures FineBoth(Next(s, Drain(who)))
  {
  }

  lemma FineKeeps(s: System, e: Label)
    requires Barrier(s) && Barrier(Next(s, e)) && Count(s) && FineBoth(s)
    ensures FineBoth(Next(s, e))
  {
    if !s.main.pc.Died? {
      match e
      case Run(TheMain, a) => FineMain(s, a);
      case Run(TheServer, _) =>
      case Run(TheEditor, a) => FineEditor(s, a);
      case Run(TheSender, a) => FineSender(s, a);
      case Drain(who) => FineDrain(s, who);
    }
  }

  // ----- every run

  predicate Sound(s: System) {
    Barrier(s) && Missing(s) && Count(s) && Threshold(s) && FineBoth(s)
  }

  lemma BootSound(iterations: nat)
    requires iterations < WORD
    ensures Sound(Boot(iterations))
  {
  }

  lemma StepSound(s: System, e: Label)
    requires Sound(s)
    ensures Sound(Next(s, e))
  {
    NextKeeps(s, e);
    MissingKeeps(s, e);
    CountKeeps(s, e);
    ThresholdKeeps(s, e);
    FineKeeps(s, e);
  }

  lemma {:induction false} ExecSound(s: System, run: seq<Label>)
    requires Sound(s)
    ensures Sound(Exec(s, run))
    decreases |run|
  {
    if run != [] {
      var t := Next(s, run[0]);
      StepSound(s, run[0]);
      ExecSound(t, run[1..]);
    }
  }

  lemma {:induction false} ExecKeepsIterations(s: System, run: seq<Label>)
    ensures Exec(s, run).iterations == s.iterations
    decreases |run|
  {
    if run != [] { ExecKeepsIterations(Next(s, run[0]), run[1..]); }
  }

  lemma RunSound(iterations: nat, run: seq<Label>)
    requires iterations < WORD
    ensures Sound(Exec(Boot(iterations), run)) && Exec(Boot(iterations), run).iterations == iterations
  {
    BootSound(iterations);
    ExecSound(Boot(iterations), run);
    ExecKeepsIterations(Boot(iterations), run);
  }

  /** In every run of every 32-bit count: both workers make one call a round, in
      order; when main judges round n both have just made round n's, and once it is
      past the error check every call so far succeeded; when main is done it has
      counted every round there was, and without a miss there were all of them. */
  lemma RoundsRunOnce(iterations: nat, run: seq<Label>)
    requires iterations < WORD
    ensures
      var s := Exec(Boot(iterations), run);
      var ed, tx := s.ed.calls, s.tx.calls;
      && InTurn(ed) && InTurn(tx) && |ed| <= |tx| + 1 && |tx| <= |ed| + 1
      && (iterations + 1 < WORD ==> |ed| <= iterations && |tx| <= iterations)
      && (Judging(s.main.pc) ==>
            |ed| == |tx| > 0 && ed[|ed| - 1].round == tx[|tx| - 1].round == s.main.n)
      && (Judging(s.main.pc) && !s.main.pc.Errors? ==> AllFine(ed) && AllFine(tx))
      && (s.main.pc.Done? ==>
            && |ed| == |tx| && s.main.completed == |ed| % WORD && s.main.misses <= 1
            && AllFine(ed) && AllFine(tx) && (s.main.misses == 0 ==> |ed| == iterations))
  {
    RunSound(iterations, run);
    AtOurPlace(Exec(Boot(iterations), run));
  }

  lemma AtOurPlace(s: System)
    requires Sound(s)
    ensures
      var ed, tx := s.ed.calls, s.tx.calls;
      && |ed| <= |tx| + 1 && |tx| <= |ed| + 1
      && (s.iterations + 1 < WORD ==> |ed| <= s.iterations && |tx| <= s.iterations)
      && (Judging(s.main.pc) ==> |ed| == |tx| > 0 && ed[|ed| - 1].round == tx[|tx| - 1].round == s.main.n)
      && (s.main.pc.Done? ==>
            |ed| == |tx| && s.main.completed == |ed| % WORD && (s.main.misses == 0 ==> |ed| == s.iterations))
  {
    if Together(s.mem) && Judging(s.main.pc) { JudgesThisRound(s); }
    if s.main.pc.Done? { DoneCounts(s); }
  }

  lemma JudgesThisRound(s: System)
    requires Barrier(s) && Judging(s.main.pc)
    ensures |s.ed.calls| == |s.tx.calls| > 0 && Last(s.ed).round == Last(s.tx).round == s.main.n
  {
  }

  lemma DoneCounts(s: System)
    requires Barrier(s) && Count(s) && Missing(s) && s.main.pc.Done?
    ensures |s.ed.calls| == |s.tx.calls| && s.main.completed == |s.ed.calls| % WORD
    ensures s.main.misses == 0 ==> |s.ed.calls| == s.iterations
  {
  }

  /** In every run of every 32-bit count: no edit overlaps the rearming, the threshold
      is 2 from there until the editor's call, and 1 while main judges the round. */
  lemma RearmIsAlone(iterations: nat, run: seq<Label>)
    requires iterations < WORD
    ensures
      var s := Exec(Boot(iterations), run);
      var pc := s.main.pc;
      && (pc.Rearm? || pc.Rearming? || pc.Initial? || pc.PutEpoch? ==>
           !s.ed.pc.Calling? && !s.tx.pc.Calling? && s.ed.buf == [] == s.tx.buf)
      && (pc.Initial? || pc.PutEpoch? ==> s.upper == 2)
      && (Judging(pc) && !pc.Errors? ==> s.upper == 1)
  {
    RunSound(iterations, run);
    AtOurPlace(Exec(Boot(iterations), run));
  }
}
