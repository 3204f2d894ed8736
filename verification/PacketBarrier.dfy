/** The round barrier of the packet race: who may be where, and what is in which
    store buffer, at every point of every run. */
module PacketBarrier {
  import opened Prelude
  import opened PacketRace

  function Ended(m: Shared, j: Job): nat { if j.Edits? then m.edited else m.sent }
  function ErrorSeen(m: Shared, j: Job): nat { if j.Edits? then m.editError else m.sendError }

  /** What an unsigned counter was before it was n. */
  function Prev(n: nat): nat { if n == 0 then WORD - 1 else n - 1 }

  /** Its calls, one for each round in order, counted on 32 bits. */
  predicate InTurn(calls: seq<Report>) {
    forall i :: 0 <= i < |calls| ==> calls[i].round == (i + 1) % WORD
  }

  predicate Reporting(pc: WorkerPc) { pc.PutError? || pc.PutDone? }

  /** The rounds released so far, as one worker shows them: its calls, and the one
      it owes if the round in memory is its next. */
  function Rounds(m: Shared, w: Worker): nat {
    |w.calls| + if w.n == m.epoch && !Reporting(w.pc) then 1 else 0
  }

  function Last(w: Worker): Report
    requires w.calls != []
  {
    w.calls[|w.calls| - 1]
  }

  /** The round in memory is over for this worker; its report may be on its way. */
  predicate Over(iterations: nat, m: Shared, j: Job, w: Worker) {
    var e := m.epoch;
    && w.n == Bump(e)
    && (w.pc.Unborn? || w.pc.AtGuard? || w.pc.LoadEpoch? || w.pc.LoadStop? || w.pc.Returned?)
    && (w.pc.Unborn? ==> e == 0)
    && (w.pc.LoadEpoch? || w.pc.LoadStop? ==> w.n <= iterations)
    && (w.pc.Returned? ==> w.n > iterations || m.stop)
    && if w.buf == [] then Ended(m, j) == e && (w.calls != [] ==> ErrorSeen(m, j) == Last(w).err)
       else
         && w.calls != [] && Ended(m, j) == Prev(e)
         && if |w.buf| == 1 then w.buf == [EndOf(j, e)] && ErrorSeen(m, j) == Last(w).err
            else w.buf == [ErrorOf(j, Last(w).err), EndOf(j, e)]
  }

  /** It has yet to report the round in memory. */
  predicate Owes(iterations: nat, m: Shared, j: Job, w: Worker) {
    var e := m.epoch;
    && !m.stop && e <= iterations && w.n == e && Ended(m, j) == Prev(e)
    && !w.pc.Unborn? && !w.pc.Returned? && (Reporting(w.pc) ==> w.calls != [])
    && if w.pc.PutDone? then
         if w.buf == [] then ErrorSeen(m, j) == Last(w).err
         else w.buf == [ErrorOf(j, Last(w).err)]
       else w.buf == []
  }

  predicate InStep(iterations: nat, m: Shared, j: Job, w: Worker) {
    && m.epoch < WORD && Rounds(m, w) % WORD == m.epoch && InTurn(w.calls)
    && (Over(iterations, m, j, w) || Owes(iterations, m, j, w))
  }

  predicate Booting(pc: MainPc) { pc.SendSmoke? || pc.AwaitSmoke? || pc.CreateEditor? || pc.CreateSender? }
  predicate Arming(pc: MainPc) { pc.Rearm? || pc.Rearming? || pc.Initial? || pc.PutEpoch? }
  predicate Judging(pc: MainPc) {
    pc.Errors? || pc.AwaitRacing? || pc.Inspect? || pc.Confirm? || pc.SendProbe? || pc.AwaitProbe?
  }
  predicate Joining(pc: MainPc) { pc.JoinEditor? || pc.JoinSender? || pc.JoinServer? || pc.Done? }

  /** Both workers have reported the round in memory. */
  predicate Together(m: Shared) { m.edited == m.epoch && m.sent == m.epoch }

  /** Where main may be, by the epoch in memory. */
  predicate MainInStep(s: System) {
    var m, n, pc := s.mem, s.main.n, s.main.pc;
    && n < WORD && n <= s.iterations + 1
    && (m.stop <==> Joining(pc))
    && (Arming(pc) || pc.WaitEdited? || pc.WaitSent? || Judging(pc) ==> n <= s.iterations)
    && match pc
       case Died => s.main.buf == [] && Together(m) && (m.epoch == n || m.epoch == Prev(n))
       case WaitEdited => if s.main.buf == [] then m.epoch == n
                          else s.main.buf == [Epoch(n)] && m.epoch == Prev(n) && Together(m)
       case WaitSent => s.main.buf == [] && m.epoch == n == m.edited
       case _ =>
         && s.main.buf == [] && Together(m)
         && if Judging(pc) then m.epoch == n
            else if pc.PutStop? || Joining(pc) then m.epoch == if n <= s.iterations then n else Prev(n)
            else m.epoch == Prev(n)
  }

  predicate Born(s: System) {
    && (s.ed.pc.Unborn? ==> Booting(s.main.pc) && !s.main.pc.CreateSender?)
    && (s.tx.pc.Unborn? ==> Booting(s.main.pc))
    && (Booting(s.main.pc) ==> s.main.n == 1 && s.tx.pc.Unborn?)
    && (Booting(s.main.pc) && !s.main.pc.CreateSender? ==> s.ed.pc.Unborn?)
  }

  predicate SeenOnly(buf: Buffer) {
    forall i :: 0 <= i < |buf| ==> buf[i].LastSeen?
  }

  predicate MainPlaced(s: System) { MainInStep(s) && (s.main.pc.Died? || Born(s)) }

  /** Everything but main's own place, the threshold and the wire. */
  predicate SameBut(s: System, t: System) {
    t.iterations == s.iterations && t.mem == s.mem && t.ed == s.ed && t.tx == s.tx && t.rx == s.rx
  }

  /** No loop counter has wrapped yet. */
  predicate Unwrapped(s: System) { s.main.n >= 1 && Rounds(s.mem, s.ed) < WORD }

  /** How often the counter went round: for every count but the largest, never. */
  predicate Turning(s: System) {
    && Rounds(s.mem, s.ed) == Rounds(s.mem, s.tx)
    && (s.main.n == 0 ==> Rounds(s.mem, s.ed) >= WORD - 1)
    && s.mem.epoch <= s.iterations
    && (s.iterations + 1 < WORD ==> Unwrapped(s))
  }

  predicate Barrier(s: System) {
    && s.iterations < WORD
    && MainPlaced(s)
    && Turning(s)
    && InStep(s.iterations, s.mem, Edits, s.ed)
    && InStep(s.iterations, s.mem, Sends, s.tx)
    && SeenOnly(s.rx.buf)
  }

  lemma SmokeKeeps(s: System, a: Answer)
    requires s.iterations < WORD && MainPlaced(s) && Turning(s)
    requires s.main.pc.SendSmoke? || s.main.pc.AwaitSmoke?
    ensures MainPlaced(MainStep(s, a)) && Turning(MainStep(s, a)) && SameBut(s, MainStep(s, a))
  {
  }

  lemma EditorBornKeeps(s: System, a: Answer)
    requires Barrier(s) && s.main.pc.CreateEditor?
    ensures Barrier(MainStep(s, a))
  {
  }

  lemma SenderBornKeeps(s: System, a: Answer)
    requires Barrier(s) && s.main.pc.CreateSender?
    ensures Barrier(MainStep(s, a))
  {
  }

  lemma ArmingKeeps(s: System, a: Answer)
    requires s.iterations < WORD && MainPlaced(s) && Turning(s)
    requires s.main.pc.Guard? || s.main.pc.Rearm? || s.main.pc.Rearming?
    ensures MainPlaced(MainStep(s, a)) && Turning(MainStep(s, a)) && SameBut(s, MainStep(s, a))
  {
  }

  lemma PublishingKeeps(s: System, a: Answer)
    requires s.iterations < WORD && MainPlaced(s) && Turning(s)
    requires s.main.pc.Initial? || s.main.pc.PutEpoch?
    ensures MainPlaced(MainStep(s, a)) && Turning(MainStep(s, a)) && SameBut(s, MainStep(s, a))
  {
  }

  lemma WaitingKeeps(s: System, a: Answer)
    requires s.iterations < WORD && MainPlaced(s) && Turning(s)
    requires s.main.pc.WaitEdited? || s.main.pc.WaitSent?
    ensures MainPlaced(MainStep(s, a)) && Turning(MainStep(s, a)) && SameBut(s, MainStep(s, a))
  {
  }

  lemma ChecksKeep(s: System, a: Answer)
    requires s.iterations < WORD && MainPlaced(s) && Turning(s)
    requires s.main.pc.Errors? || s.main.pc.AwaitRacing?
    ensures MainPlaced(MainStep(s, a)) && Turning(MainStep(s, a)) && SameBut(s, MainStep(s, a))
  {
  }

  lemma InspectKeeps(s: System, a: Answer)
    requires s.iterations < WORD && MainPlaced(s) && Turning(s)
    requires Rounds(s.mem, s.ed) % WORD == s.mem.epoch && s.main.pc.Inspect?
    ensures MainPlaced(MainStep(s, a)) && Turning(MainStep(s, a)) && SameBut(s, MainStep(s, a))
  {
  }

  lemma ConfirmKeeps(s: System, a: Answer)
    requires s.iterations < WORD && MainPlaced(s) && Turning(s)
    requires Rounds(s.mem, s.ed) % WORD == s.mem.epoch && s.main.pc.Confirm?
    ensures MainPlaced(MainStep(s, a)) && Turning(MainStep(s, a)) && SameBut(s, MainStep(s, a))
  {
  }

  lemma ProbesKeep(s: System, a: Answer)
    requires s.iterations < WORD && MainPlaced(s) && Turning(s)
    requires s.main.pc.SendProbe? || s.main.pc.AwaitProbe?
    ensures MainPlaced(MainStep(s, a)) && Turning(MainStep(s, a)) && SameBut(s, MainStep(s, a))
  {
  }

  lemma StopKeeps(s: System, a: Answer)
    requires Barrier(s) && s.main.pc.PutStop?
    ensures Barrier(MainStep(s, a))
  {
  }

  lemma JoinsKeep(s: System, a: Answer)
    requires s.iterations < WORD && MainPlaced(s) && Turning(s)
    requires Joining(s.main.pc)
    ensures MainPlaced(MainStep(s, a)) && Turning(MainStep(s, a)) && SameBut(s, MainStep(s, a))
  {
  }

  lemma MainKeeps(s: System, a: Answer)
    requires Barrier(s) && !s.main.pc.Died?
    ensures Barrier(MainStep(s, a))
  {
    var pc := s.main.pc;
    if pc.SendSmoke? || pc.AwaitSmoke? { SmokeKeeps(s, a); }
    else if pc.CreateEditor? { EditorBornKeeps(s, a); }
    else if pc.CreateSender? { SenderBornKeeps(s, a); }
    else if pc.Guard? || pc.Rearm? || pc.Rearming? { ArmingKeeps(s, a); }
    else if Arming(pc) { PublishingKeeps(s, a); }
    else if pc.WaitEdited? || pc.WaitSent? { WaitingKeeps(s, a); }
    else if pc.Errors? || pc.AwaitRacing? { ChecksKeep(s, a); }
    else if pc.Inspect? { InspectKeeps(s, a); }
    else if pc.Confirm? { ConfirmKeeps(s, a); }
    else if Judging(pc) { ProbesKeep(s, a); }
    else if pc.PutStop? { StopKeeps(s, a); }
    else { JoinsKeep(s, a); }
  }

  lemma WorkerKeeps(iterations: nat, m: Shared, j: Job, w: Worker, a: Answer)
    requires InStep(iterations, m, j, w)
    ensures InStep(iterations, m, j, WorkerStep(iterations, m, j, w, a))
    ensures Rounds(m, WorkerStep(iterations, m, j, w, a)) == Rounds(m, w)
  {
  }

  lemma WorkerDrains(iterations: nat, m: Shared, j: Job, w: Worker)
    requires InStep(iterations, m, j, w) && w.buf != []
    ensures InStep(iterations, Put(m, w.buf[0]), j, w.(buf := w.buf[1..]))
    ensures Rounds(Put(m, w.buf[0]), w.(buf := w.buf[1..])) == Rounds(m, w)
  {
  }

  /** A store of the other worker, or of the server, is nothing to this one. */
  lemma OtherStore(iterations: nat, m: Shared, j: Job, w: Worker, x: Write)
    requires InStep(iterations, m, j, w)
    requires x.LastSeen? || (if j.Edits? then x.Sent? || x.SendError? else x.Edited? || x.EditError?)
    ensures InStep(iterations, Put(m, x), j, w) && Rounds(Put(m, x), w) == Rounds(m, w)
  {
  }

  lemma EpochArrives(iterations: nat, m: Shared, j: Job, w: Worker)
    requires InStep(iterations, m, j, w) && !m.stop && Ended(m, j) == m.epoch && !w.pc.Unborn?
    requires Bump(m.epoch) <= iterations
    ensures InStep(iterations, Put(m, Epoch(Bump(m.epoch))), j, w)
    ensures Rounds(Put(m, Epoch(Bump(m.epoch))), w) == Rounds(m, w) + 1
  {
  }

  lemma WorkerRuns(s: System, who: Who, a: Answer)
    requires Barrier(s) && !s.main.pc.Died? && (who.TheEditor? || who.TheSender?)
    ensures Barrier(Next(s, Run(who, a)))
  {
    if who.TheEditor? {
      WorkerKeeps(s.iterations, s.mem, Edits, s.ed, a);
    } else {
      WorkerKeeps(s.iterations, s.mem, Sends, s.tx, a);
    }
  }

  lemma DrainMainKeeps(s: System)
    requires Barrier(s) && !s.main.pc.Died? && s.main.buf != []
    ensures Barrier(Next(s, Drain(TheMain)))
  {
    EpochArrives(s.iterations, s.mem, Edits, s.ed);
    EpochArrives(s.iterations, s.mem, Sends, s.tx);
  }

  lemma DrainEditorKeeps(s: System)
    requires Barrier(s) && !s.main.pc.Died? && s.ed.buf != []
    ensures Barrier(Next(s, Drain(TheEditor)))
  {
    WorkerDrains(s.iterations, s.mem, Edits, s.ed);
    OtherStore(s.iterations, s.mem, Sends, s.tx, s.ed.buf[0]);
  }

  lemma DrainSenderKeeps(s: System)
    requires Barrier(s) && !s.main.pc.Died? && s.tx.buf != []
    ensures Barrier(Next(s, Drain(TheSender)))
  {
    WorkerDrains(s.iterations, s.mem, Sends, s.tx);
    OtherStore(s.iterations, s.mem, Edits, s.ed, s.tx.buf[0]);
  }

  lemma DrainServerKeeps(s: System)
    requires Barrier(s) && !s.main.pc.Died? && s.rx.buf != []
    ensures Barrier(Next(s, Drain(TheServer)))
  {
    OtherStore(s.iterations, s.mem, Edits, s.ed, s.rx.buf[0]);
    OtherStore(s.iterations, s.mem, Sends, s.tx, s.rx.buf[0]);
  }

  lemma NextKeeps(s: System, e: Label)
    requires Barrier(s)
    ensures Barrier(Next(s, e))
  {
    if !s.main.pc.Died? {
      match e
      case Run(TheMain, a) => MainKeeps(s, a);
      case Run(TheEditor, a) => WorkerRuns(s, TheEditor, a);
      case Run(TheSender, a) => WorkerRuns(s, TheSender, a);
      case Run(TheServer, _) =>
      case Drain(TheMain) => if s.main.buf != [] { DrainMainKeeps(s); }
      case Drain(TheEditor) => if s.ed.buf != [] { DrainEditorKeeps(s); }
      case Drain(TheSender) => if s.tx.buf != [] { DrainSenderKeeps(s); }
      case Drain(TheServer) => if s.rx.buf != [] { DrainServerKeeps(s); }
    }
  }
}
