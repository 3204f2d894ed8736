/** What the packet race may conclude about its channel: until the loop counter wraps,
    a packet main takes for delivered was. */
module PacketTruth {
  import opened Prelude
  import opened PacketRace
  import opened PacketBarrier
  import opened PacketRounds

  // ----- the channel

  predicate Probed(s: System) { s.main.misses > 0 && !s.main.pc.SendProbe? }

  /** What can be on the wire: the smoke packet, the racing packets sent so far, and
      the probe of the round that missed. */
  predicate Sendable(s: System, x: nat) {
    || (x == 1 && !s.main.pc.SendSmoke?)
    || (x % 2 == 0 && 2 <= x <= 2 * |s.tx.calls|)
    || (x == 2 * s.main.n + 1 && Probed(s))
  }

  predicate OnWire(s: System) { forall x :: x in s.wire ==> Sendable(s, x) }

  /** Everything noted anywhere was received, and what was received had been sent. */
  predicate Heard(s: System) {
    && s.rx.got <= s.wire
    && (s.mem.lastSeen == 0 || s.mem.lastSeen in s.rx.got)
    && (s.rx.pc.PutSeen? ==> s.rx.pc.seqno in s.rx.got)
    && (forall i :: 0 <= i < |s.rx.buf| ==> s.rx.buf[i].LastSeen? && s.rx.buf[i].seqno in s.rx.got)
  }

  /** What of the channel a step of main touches. */
  lemma MainSends(s: System, a: Answer)
    requires Missing(s) && !s.main.pc.Died?
    ensures
      var t, pc := MainStep(s, a), s.main.pc;
      && (pc.SendSmoke? ==> t.wire <= s.wire + {1} && !t.main.pc.SendSmoke?)
      && (pc.SendProbe? ==> t.wire <= s.wire + {2 * s.main.n + 1} && t.main.n == s.main.n && Probed(t))
      && (!pc.SendSmoke? && !pc.SendProbe? ==> t.wire == s.wire && !t.main.pc.SendSmoke?)
  {
  }

  lemma MainKeepsProbe(s: System, a: Answer)
    requires Missing(s) && Probed(s) && !s.main.pc.Died?
    ensures MainStep(s, a).main.n == s.main.n && Probed(MainStep(s, a))
  {
  }

  lemma MainHears(s: System, a: Answer)
    requires Heard(s) && !s.main.pc.Died?
    ensures Heard(MainStep(s, a)) && MainStep(s, a).tx.calls == s.tx.calls && s.wire <= MainStep(s, a).wire
  {
  }

  lemma OnWireMain(s: System, a: Answer)
    requires OnWire(s) && Missing(s) && !s.main.pc.Died? && MainStep(s, a).tx.calls == s.tx.calls
    ensures OnWire(MainStep(s, a))
  {
    var t := MainStep(s, a);
    MainSends(s, a);
    if Probed(s) { MainKeepsProbe(s, a); }
    forall x | x in t.wire ensures Sendable(t, x) {
      if x in s.wire { assert Sendable(s, x); }
    }
  }

  /** The sender sends this round's number, if the counter has not wrapped. */
  lemma OnWireSender(s: System, a: Answer)
    requires OnWire(s) && !s.main.pc.Died?
    requires s.tx.pc.Calling? ==> s.tx.n == |s.tx.calls| + 1
    ensures OnWire(Next(s, Run(TheSender, a)))
  {
    var t := Next(s, Run(TheSender, a));
    forall x | x in t.wire ensures Sendable(t, x) {
      if x in s.wire { assert Sendable(s, x); }
    }
  }

  lemma OnWireOthers(s: System, e: Label)
    requires OnWire(s) && !s.main.pc.Died? && !(e.Run? && (e.who.TheMain? || e.who.TheSender?))
    ensures OnWire(Next(s, e))
  {
    var t := Next(s, e);
    forall x | x in t.wire ensures Sendable(t, x) { assert Sendable(s, x); }
  }

  lemma ServerHears(s: System, e: Label)
    requires Heard(s) && !s.main.pc.Died? && e.who.TheServer?
    ensures Heard(Next(s, e))
  {
  }

  lemma WorkerHears(s: System, e: Label)
    requires Heard(s) && !s.main.pc.Died? && (e.who.TheEditor? || e.who.TheSender?)
    requires InStep(s.iterations, s.mem, Edits, s.ed) && InStep(s.iterations, s.mem, Sends, s.tx)
    ensures Heard(Next(s, e))
  {
  }

  lemma EpochHears(s: System)
    requires Heard(s) && MainPlaced(s)
    ensures Heard(Next(s, Drain(TheMain)))
  {
  }

  lemma ChannelKeeps(s: System, e: Label)
    requires Barrier(s) && Missing(s) && Unwrapped(s) && OnWire(s) && Heard(s)
    ensures OnWire(Next(s, e)) && Heard(Next(s, e))
  {
    if !s.main.pc.Died? {
      match e
      case Run(TheMain, a) => MainHears(s, a); OnWireMain(s, a);
      case Run(TheSender, a) => WorkerHears(s, e); OnWireSender(s, a);
      case Drain(TheMain) => EpochHears(s); OnWireOthers(s, e);
      case _ =>
        if e.who.TheServer? { ServerHears(s, e); } else { WorkerHears(s, e); }
        OnWireOthers(s, e);
    }
  }

  // ----- truth of await_packet

  /** A smoke packet, racing packet or probe that main sees has arrived, although
      last_seen may have gone down in between and packets may be lost or repeated. */
  lemma AwaitIsTruthful(s: System, x: nat, polls: nat, milliseconds: nat)
    requires Barrier(s) && Missing(s) && Unwrapped(s) && OnWire(s) && Heard(s)
    requires
      || (s.main.pc.AwaitSmoke? && x == 1)
      || (s.main.pc.AwaitRacing? && x == 2 * s.main.n)
      || (s.main.pc.AwaitProbe? && x == 2 * s.main.n + 1)
    ensures AwaitPacket(s.mem, x, polls, milliseconds).Arrived? ==> s.mem.lastSeen == x && x in s.rx.got
  {
    var y := s.mem.lastSeen;
    if y >= x {
      assert y in s.wire && Sendable(s, y);
    }
  }

  /** The rounds main has seen through: the one under Inspect is not counted yet. */
  function SeenThrough(s: System): nat { s.main.completed + if s.main.pc.Inspect? then 1 else 0 }

  /** Everything main has taken for delivered. */
  predicate Received(s: System) {
    var n, pc := s.main.n, s.main.pc;
    && (forall k :: 1 <= k <= SeenThrough(s) ==> 2 * k in s.rx.got)
    && (!pc.SendSmoke? && !pc.AwaitSmoke? && !pc.Died? ==> 1 in s.rx.got)
    && ((pc.PutStop? || Joining(pc)) && s.main.misses == 1 && !s.main.probeLost ==> 2 * n + 1 in s.rx.got)
  }

  /** The step of main that sees a round through is the one that gets its packet. */
  lemma SeesThrough(s: System, a: Answer)
    requires MainPlaced(s) && Count(s) && Unwrapped(s) && !s.main.pc.Died?
    ensures
      var t, pc := MainStep(s, a), s.main.pc;
      || SeenThrough(t) <= SeenThrough(s)
      || (pc.AwaitRacing? && t.main.pc.Inspect? && SeenThrough(t) == s.main.n == SeenThrough(s) + 1)
  {
  }

  lemma SeenThroughMain(s: System, a: Answer, k: nat)
    requires Barrier(s) && Missing(s) && Count(s) && Unwrapped(s) && OnWire(s) && Heard(s) && Received(s)
    requires !s.main.pc.Died? && 1 <= k <= SeenThrough(MainStep(s, a))
    ensures 2 * k in s.rx.got
  {
    SeesThrough(s, a);
    if k > SeenThrough(s) { AwaitIsTruthful(s, 2 * s.main.n, s.main.pc.polls, 1000); }
  }

  /** Main reaches the end of a wait by a packet that came, or gives up. */
  lemma MainWaits(s: System, a: Answer)
    requires Missing(s) && !s.main.pc.Died?
    ensures
      var t, m := MainStep(s, a).main, s.main;
      && (t.pc.PutStop? || Joining(t.pc) ==>
            m.pc.Guard? || m.pc.PutStop? || Joining(m.pc) || (m.pc.AwaitProbe? && t.n == m.n &&
              (t.probeLost || AwaitPacket(s.mem, 2 * m.n + 1, m.pc.polls, 100).Arrived?)))
      && (m.pc.Guard? || m.pc.PutStop? || Joining(m.pc) ==>
            t.n == m.n && t.misses == m.misses && t.probeLost == m.probeLost)
      && (m.pc.SendSmoke? || m.pc.AwaitSmoke? ==>
            t.pc.AwaitSmoke? || t.pc.Died? ||
            (m.pc.AwaitSmoke? && AwaitPacket(s.mem, 1, m.pc.polls, 1000).Arrived?))
  {
  }

  lemma ReceivedMain(s: System, a: Answer)
    requires Barrier(s) && Missing(s) && Count(s) && Unwrapped(s) && OnWire(s) && Heard(s) && Received(s)
    requires !s.main.pc.Died? && MainStep(s, a).rx == s.rx
    ensures Received(MainStep(s, a))
  {
    var t, pc := MainStep(s, a), s.main.pc;
    forall k | 1 <= k <= SeenThrough(t) ensures 2 * k in t.rx.got { SeenThroughMain(s, a, k); }
    MainWaits(s, a);
    if pc.AwaitSmoke? { AwaitIsTruthful(s, 1, pc.polls, 1000); }
    if pc.AwaitProbe? { AwaitIsTruthful(s, 2 * s.main.n + 1, pc.polls, 100); }
  }

  lemma ReceivedOthers(s: System, e: Label)
    requires Received(s) && !(e.Run? && e.who.TheMain?)
    ensures Received(Next(s, e))
  {
  }

  lemma ReceivedKeeps(s: System, e: Label)
    requires Barrier(s) && Missing(s) && Count(s) && Unwrapped(s) && OnWire(s) && Heard(s) && Received(s)
    ensures Received(Next(s, e))
  {
    if !(e.Run? && e.who.TheMain?) {
      ReceivedOthers(s, e);
    } else if !s.main.pc.Died? {
      MainTouches(s, e.a);
      ReceivedMain(s, e.a);
    }
  }

  lemma MainTouches(s: System, a: Answer)
    ensures MainStep(s, a).rx == s.rx && Rounds(MainStep(s, a).mem, MainStep(s, a).ed) >= Rounds(s.mem, s.ed)
  {
  }

  // ----- before the wrap

  /** A counter that has wrapped stays wrapped. */
  lemma WrappedMain(s: System, a: Answer)
    requires Barrier(s) && !s.main.pc.Died? && Unwrapped(MainStep(s, a))
    ensures Unwrapped(s)
  {
  }

  lemma WrappedStays(s: System, e: Label)
    requires Barrier(s) && Unwrapped(Next(s, e))
    ensures Unwrapped(s)
  {
    if !s.main.pc.Died? {
      match e
      case Run(TheMain, a) => WrappedMain(s, a);
      case Run(TheEditor, a) => WorkerKeeps(s.iterations, s.mem, Edits, s.ed, a);
      case Drain(TheEditor) => if s.ed.buf != [] { WorkerDrains(s.iterations, s.mem, Edits, s.ed); }
      case Drain(TheSender) => if s.tx.buf != [] { OtherStore(s.iterations, s.mem, Edits, s.ed, s.tx.buf[0]); }
      case Drain(TheServer) => if s.rx.buf != [] { OtherStore(s.iterations, s.mem, Edits, s.ed, s.rx.buf[0]); }
      case Drain(TheMain) =>
        if s.main.buf != [] { EpochArrives(s.iterations, s.mem, Edits, s.ed); }
      case _ =>
    }
  }

  // ----- at the wrap and after it

  /** Round k's packet arrived and both calls succeeded. */
  predicate Happened(s: System, k: nat) {
    && 1 <= k <= |s.ed.calls| && k <= |s.tx.calls|
    && s.ed.calls[k - 1] == Report(k, 0) && s.tx.calls[k - 1] == Report(k, 0)
    && 2 * k in s.rx.got
  }

  predicate AllHappened(s: System) { forall k :: 1 <= k < WORD ==> Happened(s, k) }

  /** What has happened is never undone. */
  lemma HappenedStays(s: System, e: Label, k: nat)
    requires Happened(s, k)
    ensures Happened(Next(s, e), k)
  {
  }

  lemma SeenWasCalled(s: System, k: nat)
    requires Sound(s) && Unwrapped(s) && 1 <= k <= SeenThrough(s)
    ensures k <= |s.ed.calls| && s.ed.calls[k - 1] == Report(k, 0)
    ensures k <= |s.tx.calls| && s.tx.calls[k - 1] == Report(k, 0)
  {
    var i := k - 1;
    assert k < WORD && (k < Rounds(s.mem, s.ed) || Settled(s));
    assert s.ed.calls[i].round == (i + 1) % WORD && s.ed.calls[i].err == 0;
    assert s.tx.calls[i].round == (i + 1) % WORD && s.tx.calls[i].err == 0;
  }

  lemma SeenHappened(s: System, k: nat)
    requires Sound(s) && Unwrapped(s) && Received(s) && 1 <= k <= SeenThrough(s)
    ensures Happened(s, k)
  {
    SeenWasCalled(s, k);
  }

  /** The counter wraps only when main has seen the last round through. */
  lemma WrapsAtLastRound(s: System, a: Answer)
    requires Sound(s) && Unwrapped(s) && !s.main.pc.Died? && !Unwrapped(MainStep(s, a))
    ensures SeenThrough(s) == WORD - 1
  {
  }

  /** Only main moves the counter; an epoch on its way is main's round. */
  lemma OnlyMainWraps(s: System, e: Label)
    requires Barrier(s) && Unwrapped(s) && !(e.Run? && e.who.TheMain?)
    ensures Unwrapped(Next(s, e))
  {
    if !s.main.pc.Died? {
      match e
      case Run(TheEditor, a) => WorkerKeeps(s.iterations, s.mem, Edits, s.ed, a);
      case Drain(TheEditor) => if s.ed.buf != [] { WorkerDrains(s.iterations, s.mem, Edits, s.ed); }
      case Drain(TheSender) => if s.tx.buf != [] { OtherStore(s.iterations, s.mem, Edits, s.ed, s.tx.buf[0]); }
      case Drain(TheServer) => if s.rx.buf != [] { OtherStore(s.iterations, s.mem, Edits, s.ed, s.rx.buf[0]); }
      case Drain(TheMain) =>
        if s.main.buf != [] { EpochArrives(s.iterations, s.mem, Edits, s.ed); }
      case _ =>
    }
  }

  /** So when it has wrapped, every round from 1 to the last has happened. */
  lemma AllHappenedAtWrap(s: System, e: Label)
    requires Sound(s) && Unwrapped(s) && Received(s) && !Unwrapped(Next(s, e))
    ensures AllHappened(Next(s, e))
  {
    if !(e.Run? && e.who.TheMain?) {
      OnlyMainWraps(s, e);
    } else {
      WrapsAtLastRound(s, e.a);
      forall k | 1 <= k < WORD ensures Happened(Next(s, e), k) {
        SeenHappened(s, k);
        HappenedStays(s, e, k);
      }
    }
  }

  predicate True(s: System) {
    && Sound(s)
    && if Unwrapped(s) then OnWire(s) && Heard(s) && Received(s) else AllHappened(s)
  }

  lemma StepTrue(s: System, e: Label)
    requires True(s)
    ensures True(Next(s, e))
  {
    var t := Next(s, e);
    StepSound(s, e);
    if Unwrapped(t) {
      WrappedStays(s, e);
      ChannelKeeps(s, e);
      ReceivedKeeps(s, e);
    } else if Unwrapped(s) {
      AllHappenedAtWrap(s, e);
    } else {
      forall k | 1 <= k < WORD ensures Happened(t, k) { HappenedStays(s, e, k); }
    }
  }

  lemma {:induction false} ExecTrue(s: System, run: seq<Label>)
    requires True(s)
    ensures True(Exec(s, run))
    decreases |run|
  {
    if run != [] {
      var t := Next(s, run[0]);
      StepTrue(s, run[0]);
      ExecTrue(t, run[1..]);
    }
  }

  lemma RunTrue(iterations: nat, run: seq<Label>)
    requires iterations < WORD
    ensures True(Exec(Boot(iterations), run)) && Exec(Boot(iterations), run).iterations == iterations
  {
    BootSound(iterations);
    ExecTrue(Boot(iterations), run);
    ExecKeepsIterations(Boot(iterations), run);
  }

  // ----- every run

  lemma RacingIsTrue(s: System, polls: nat)
    requires True(s) && s.main.n != 0 && s.main.pc.AwaitRacing?
    ensures AwaitPacket(s.mem, 2 * s.main.n, polls, 1000).Arrived? ==> 2 * s.main.n in s.rx.got
  {
    if Unwrapped(s) { AwaitIsTruthful(s, 2 * s.main.n, polls, 1000); } else { assert Happened(s, s.main.n); }
  }

  /** In every run of every 32-bit count: in any round but round 0 the packet that
      await_packet reports did arrive, and so did the probe, as long as the loop counter
      has not wrapped, which no count but the largest allows. */
  lemma ReportedPacketsArrived(iterations: nat, run: seq<Label>, polls: nat)
    requires iterations < WORD
    ensures
      var s := Exec(Boot(iterations), run);
      var n, pc := s.main.n, s.main.pc;
      && (iterations + 1 < WORD ==> Unwrapped(s))
      && (n != 0 && pc.AwaitRacing? && AwaitPacket(s.mem, 2 * n, polls, 1000).Arrived? ==> 2 * n in s.rx.got)
      && (n != 0 && pc.Inspect? ==> 2 * n in s.rx.got)
      && (Unwrapped(s) ==>
            && (pc.AwaitProbe? && AwaitPacket(s.mem, 2 * n + 1, polls, 100).Arrived? ==> 2 * n + 1 in s.rx.got)
            && (pc.Done? && s.main.misses == 1 && !s.main.probeLost ==> 2 * n + 1 in s.rx.got))
  {
    RunTrue(iterations, run);
    var s := Exec(Boot(iterations), run);
    if s.main.n != 0 && s.main.pc.AwaitRacing? { RacingIsTrue(s, polls); }
    if s.main.n != 0 && s.main.pc.Inspect? { InspectedArrived(s); }
    if Unwrapped(s) && s.main.pc.AwaitProbe? { AwaitIsTruthful(s, 2 * s.main.n + 1, polls, 100); }
  }

  lemma InspectedArrived(s: System)
    requires True(s) && s.main.n != 0 && s.main.pc.Inspect?
    ensures 2 * s.main.n in s.rx.got
  {
    if Unwrapped(s) { assert SeenThrough(s) == s.main.n; } else { assert Happened(s, s.main.n); }
  }

  /** In every run of every 32-bit count, wrapped or not: every round up to the number
      main has counted happened. */
  lemma CountedRoundsHappened(iterations: nat, run: seq<Label>, k: nat)
    requires iterations < WORD && 1 <= k <= Exec(Boot(iterations), run).main.completed
    ensures Happened(Exec(Boot(iterations), run), k)
  {
    RunTrue(iterations, run);
    var s := Exec(Boot(iterations), run);
    CountIsWord(s);
    if Unwrapped(s) { SeenHappened(s, k); }
  }

  lemma CountIsWord(s: System)
    requires Barrier(s) && Count(s)
    ensures s.main.completed < WORD
  {
  }
}
