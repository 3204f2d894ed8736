/** The one iteration count the packet race cannot bear: at 2^32 - 1 the loop counter
    wraps to round 0, whose packet main takes for delivered before it is. */
module PacketWrap {
  import opened Prelude
  import opened PacketRace
  import opened PacketBarrier
  import opened PacketRounds
  import opened PacketTruth
  import opened PacketStop

  ghost predicate Leads(s: System, t: System) { exists run: seq<Label> :: Exec(s, run) == t }

  lemma LeadsNowhere(s: System)
    ensures Leads(s, s)
  {
    assert Exec(s, []) == s;
  }

  lemma LeadsOn(s: System, t: System, e: Label)
    requires Leads(s, t)
    ensures Leads(s, Next(t, e))
  {
    var run: seq<Label> :| Exec(s, run) == t;
    ExecAppend(s, run, [e]);
    assert Exec(t, [e]) == Exec(Next(t, e), [e][1..]);
    assert Exec(s, run + [e]) == Next(t, e);
  }

  lemma LeadsThrough(s: System, t: System, u: System)
    requires Leads(s, t) && Leads(t, u)
    ensures Leads(s, u)
  {
    var x: seq<Label> :| Exec(s, x) == t;
    var y: seq<Label> :| Exec(t, y) == u;
    ExecAppend(s, x, y);
    assert Exec(s, x + y) == u;
  }

  /** A call that succeeds, on a destination that is not overloaded. */
  function Fine(left: bool, arrived: nat): Answer { Answer(0, left, arrived, true, 0, 2, 0, 0) }

  function Ran(s: System, who: Who): System { Next(s, Run(who, Fine(true, 0))) }
  function Drained(s: System, who: Who): System { Next(s, Drain(who)) }

  lemma RanLeads(s: System, t: System, who: Who)
    requires Leads(s, t)
    ensures Leads(s, Ran(t, who)) && Leads(s, Drained(t, who))
  {
    LeadsOn(s, t, Run(who, Fine(true, 0)));
    LeadsOn(s, t, Drain(who));
  }

  /** Both workers and the server wait; main is about to start round n. */
  predicate Between(s: System, n: nat) {
    && s.main == Main(n, Guard, s.main.completed, 0, s.main.probeLost, [])
    && s.ed == Worker(n, AtGuard, s.ed.calls, []) && s.tx == Worker(n, AtGuard, s.tx.calls, [])
    && s.rx == Server(CheckStop, s.rx.got, [])
    && !s.mem.stop && 0 !in s.rx.got && 3 !in s.rx.got && n <= s.iterations
  }

  function Released(s: System): System {
    s.(mem := s.mem.(epoch := s.main.n), main := s.main.(pc := WaitEdited), upper := 2)
  }

  function Armed(s: System): System { s.(main := s.main.(pc := Initial), upper := 2) }

  lemma MainArms(s: System)
    requires Between(s, s.main.n)
    ensures Leads(s, Armed(s))
  {
    LeadsNowhere(s);
    var s1 := Ran(s, TheMain);
    var s2 := Ran(s1, TheMain);
    RanLeads(s, s, TheMain);
    RanLeads(s, s1, TheMain);
    RanLeads(s, s2, TheMain);
    assert Ran(s2, TheMain) == Armed(s);
  }

  lemma MainPublishes(s: System)
    requires s.main.pc.Initial? && s.main.buf == []
    ensures Leads(s, s.(mem := s.mem.(epoch := s.main.n), main := s.main.(pc := WaitEdited)))
  {
    LeadsNowhere(s);
    var s1 := Ran(s, TheMain);
    var s2 := Ran(s1, TheMain);
    RanLeads(s, s, TheMain);
    RanLeads(s, s1, TheMain);
    RanLeads(s, s2, TheMain);
    assert s2.main.buf == [Epoch(s.main.n)];
    assert Drained(s2, TheMain) == s.(mem := s.mem.(epoch := s.main.n), main := s.main.(pc := WaitEdited));
  }

  lemma MainReleases(s: System)
    requires Between(s, s.main.n)
    ensures Leads(s, Released(s))
  {
    MainArms(s);
    MainPublishes(Armed(s));
    LeadsThrough(s, Armed(s), Released(s));
  }

  predicate Ready(iterations: nat, m: Shared, w: Worker) {
    w.pc.AtGuard? && w.buf == [] && w.n <= iterations && m.epoch == w.n
  }

  function Reported(w: Worker): Worker { Worker(Bump(w.n), AtGuard, w.calls + [Report(w.n, 0)], []) }

  function Called1(w: Worker): Worker { w.(pc := PutError, calls := w.calls + [Report(w.n, 0)]) }

  function Edited1(s: System): System {
    s.(mem := s.mem.(editError := 0, edited := s.ed.n), ed := Reported(s.ed), upper := 1)
  }

  lemma EditorCalls(s: System)
    requires Ready(s.iterations, s.mem, s.ed) && !s.main.pc.Died?
    ensures Leads(s, s.(ed := Called1(s.ed), upper := 1))
  {
    LeadsNowhere(s);
    var s1 := Ran(s, TheEditor);
    var s2 := Ran(s1, TheEditor);
    var s3 := Ran(s2, TheEditor);
    RanLeads(s, s, TheEditor);
    RanLeads(s, s1, TheEditor);
    RanLeads(s, s2, TheEditor);
    RanLeads(s, s3, TheEditor);
    assert Ran(s3, TheEditor) == s.(ed := Called1(s.ed), upper := 1);
  }

  lemma EditorReports(s: System)
    requires Ready(s.iterations, s.mem, s.ed) && !s.main.pc.Died?
    ensures Leads(s, Edited1(s))
  {
    EditorCalls(s);
    var s4 := s.(ed := Called1(s.ed), upper := 1);
    var s5 := Ran(s4, TheEditor);
    var s6 := Ran(s5, TheEditor);
    var s7 := Drained(s6, TheEditor);
    RanLeads(s, s4, TheEditor);
    RanLeads(s, s5, TheEditor);
    RanLeads(s, s6, TheEditor);
    RanLeads(s, s7, TheEditor);
    assert s6.ed.buf == [EditError(0), Edited(s.ed.n)];
    assert s7.ed.buf == [Edited(s.ed.n)];
    assert Drained(s7, TheEditor) == Edited1(s);
  }

  function Sent1(s: System): System {
    s.(mem := s.mem.(sendError := 0, sent := s.tx.n), tx := Reported(s.tx), wire := s.wire + {2 * s.tx.n})
  }

  lemma SenderCalls(s: System)
    requires Ready(s.iterations, s.mem, s.tx) && !s.main.pc.Died?
    ensures Leads(s, s.(tx := Called1(s.tx), wire := s.wire + {2 * s.tx.n}))
  {
    LeadsNowhere(s);
    var s1 := Ran(s, TheSender);
    var s2 := Ran(s1, TheSender);
    var s3 := Ran(s2, TheSender);
    RanLeads(s, s, TheSender);
    RanLeads(s, s1, TheSender);
    RanLeads(s, s2, TheSender);
    RanLeads(s, s3, TheSender);
    assert Ran(s3, TheSender) == s.(tx := Called1(s.tx), wire := s.wire + {2 * s.tx.n});
  }

  lemma SenderReports(s: System)
    requires Ready(s.iterations, s.mem, s.tx) && !s.main.pc.Died?
    ensures Leads(s, Sent1(s))
  {
    SenderCalls(s);
    var s4 := s.(tx := Called1(s.tx), wire := s.wire + {2 * s.tx.n});
    var s5 := Ran(s4, TheSender);
    var s6 := Ran(s5, TheSender);
    var s7 := Drained(s6, TheSender);
    RanLeads(s, s4, TheSender);
    RanLeads(s, s5, TheSender);
    RanLeads(s, s6, TheSender);
    RanLeads(s, s7, TheSender);
    assert s6.tx.buf == [SendError(0), Sent(s.tx.n)];
    assert s7.tx.buf == [Sent(s.tx.n)];
    assert Drained(s7, TheSender) == Sent1(s);
  }

  function Asking(s: System): System { s.(main := s.main.(pc := AwaitRacing(0))) }

  lemma MainAsks(s: System)
    requires s.main.pc.WaitEdited? && s.mem.edited == s.mem.sent == s.main.n
    requires s.mem.editError == s.mem.sendError == 0
    ensures Leads(s, Asking(s))
  {
    LeadsNowhere(s);
    var s1 := Ran(s, TheMain);
    var s2 := Ran(s1, TheMain);
    RanLeads(s, s, TheMain);
    RanLeads(s, s1, TheMain);
    RanLeads(s, s2, TheMain);
    assert Ran(s2, TheMain) == Asking(s);
  }

  function Received(s: System, x: nat): System {
    s.(mem := s.mem.(lastSeen := x), rx := s.rx.(got := s.rx.got + {x}))
  }

  lemma ServerReceives(s: System, x: nat)
    requires s.rx.pc.CheckStop? && s.rx.buf == [] && !s.mem.stop && x in s.wire && !s.main.pc.Died?
    ensures Leads(s, Received(s, x))
  {
    LeadsNowhere(s);
    var s1 := Ran(s, TheServer);
    var s2 := Next(s1, Run(TheServer, Fine(true, x)));
    var s3 := Ran(s2, TheServer);
    RanLeads(s, s, TheServer);
    LeadsOn(s, s1, Run(TheServer, Fine(true, x)));
    RanLeads(s, s2, TheServer);
    RanLeads(s, s3, TheServer);
    assert s3.rx.buf == [LastSeen(x)];
    assert Drained(s3, TheServer) == Received(s, x);
  }

  function Next1(s: System): System {
    s.(main := s.main.(pc := Guard, n := Bump(s.main.n), completed := Bump(s.main.completed)))
  }

  lemma MainGoesOn(s: System)
    requires s.main.pc.AwaitRacing? && s.mem.lastSeen >= 2 * s.main.n
    ensures Leads(s, Next1(s))
  {
    LeadsNowhere(s);
    var s1 := Ran(s, TheMain);
    RanLeads(s, s, TheMain);
    RanLeads(s, s1, TheMain);
    assert Ran(s1, TheMain) == Next1(s);
  }

  /** Every round can get as far as waiting for its packet. */
  lemma RoundAsks(s: System)
    requires Between(s, s.main.n)
    ensures Leads(s, Asking(Sent1(Edited1(Released(s)))))
  {
    var r := Released(s);
    MainReleases(s);
    EditorReports(r);
    SenderReports(Edited1(r));
    MainAsks(Sent1(Edited1(r)));
    LeadsThrough(s, r, Edited1(r));
    LeadsThrough(s, Edited1(r), Sent1(Edited1(r)));
    LeadsThrough(s, Sent1(Edited1(r)), Asking(Sent1(Edited1(r))));
  }

  lemma RoundEnds(s: System) returns (t: System)
    requires Between(s, s.main.n) && s.main.n > 0
    ensures Leads(s, t) && t.iterations == s.iterations && t.main.n == Bump(s.main.n)
    ensures t.main.n <= t.iterations ==> Between(t, t.main.n)
    ensures t.mem.lastSeen == 2 * s.main.n
  {
    var asking := Asking(Sent1(Edited1(Released(s))));
    var received := Received(asking, 2 * s.main.n);
    RoundAsks(s);
    ServerReceives(asking, 2 * s.main.n);
    MainGoesOn(received);
    t := Next1(received);
    LeadsThrough(s, asking, received);
    LeadsThrough(s, received, t);
  }

  lemma Starts(iterations: nat) returns (t: System)
    requires iterations > 0
    ensures Leads(Boot(iterations), t) && t.iterations == iterations && t.main.n == 1 && Between(t, 1)
  {
    var s := Boot(iterations);
    LeadsNowhere(s);
    var s1 := Ran(s, TheMain);
    RanLeads(s, s, TheMain);
    ServerReceives(s1, 1);
    var s2 := Received(s1, 1);
    LeadsThrough(s, s1, s2);
    var s3 := Ran(s2, TheMain);
    var s4 := Ran(s3, TheMain);
    t := Ran(s4, TheMain);
    RanLeads(s, s2, TheMain);
    RanLeads(s, s3, TheMain);
    RanLeads(s, s4, TheMain);
  }

  lemma {:induction false} ManyRounds(iterations: nat, n: nat) returns (t: System)
    requires 1 <= n <= iterations < WORD
    ensures Leads(Boot(iterations), t) && t.iterations == iterations && t.main.n == n && Between(t, n)
    decreases n
  {
    if n == 1 {
      t := Starts(iterations);
    } else {
      var s := ManyRounds(iterations, n - 1);
      t := RoundEnds(s);
      LeadsThrough(Boot(iterations), s, t);
    }
  }

  /** Some run has main take for delivered a racing packet that never was. */
  ghost predicate Misled(iterations: nat) {
    exists run: seq<Label> :: Mistaken(Exec(Boot(iterations), run))
  }

  predicate Mistaken(s: System) {
    s.main.pc.AwaitRacing? && AwaitPacket(s.mem, 2 * s.main.n, s.main.pc.polls, 1000).Arrived? &&
    2 * s.main.n !in s.rx.got
  }

  /** At the largest count main can come to round 0 with the last packet noted. */
  lemma ReachesRoundZero() returns (t: System)
    ensures Leads(Boot(WORD - 1), t) && t.iterations == WORD - 1 && t.main.n == 0 && Between(t, 0)
    ensures t.mem.lastSeen == 2 * (WORD - 1)
  {
    var s := ManyRounds(WORD - 1, WORD - 1);
    t := RoundEnds(s);
    LeadsThrough(Boot(WORD - 1), s, t);
  }

  /** And be left waiting for that round's packet. */
  lemma AsksForRoundZero() returns (u: System)
    ensures Leads(Boot(WORD - 1), u) && u.main.pc == AwaitRacing(0) && u.main.n == 0 && 0 !in u.rx.got
    ensures u.ed.calls != [] && Last(u.ed).round == 0 && u.tx.calls != [] && Last(u.tx).round == 0
  {
    var t := ReachesRoundZero();
    RoundAsks(t);
    u := Asking(Sent1(Edited1(Released(t))));
    LeadsThrough(Boot(WORD - 1), t, u);
  }

  lemma LastCountMisleads()
    ensures Misled(WORD - 1)
  {
    var u := AsksForRoundZero();
    assert Mistaken(u);
  }

  /** Of all the counts a 32-bit argument can give, exactly the last one misleads. */
  lemma MisledIffWraps(iterations: nat)
    requires iterations < WORD
    ensures Misled(iterations) <==> iterations == WORD - 1
  {
    if iterations == WORD - 1 {
      LastCountMisleads();
    } else {
      forall run: seq<Label> ensures !Mistaken(Exec(Boot(iterations), run)) {
        var s := Exec(Boot(iterations), run);
        if s.main.pc.AwaitRacing? { ReportedPacketsArrived(iterations, run, s.main.pc.polls); }
      }
    }
  }

  /** Main is about to count a round whose packet never arrived. */
  predicate Unheard(s: System) { s.main.pc.Inspect? && 2 * s.main.n !in s.rx.got }

  ghost predicate CountsUnheard(iterations: nat) {
    exists run: seq<Label> :: Unheard(Exec(Boot(iterations), run))
  }

  /** A round is counted with its packet missing in some run exactly at the last count:
      it is round 0. */
  lemma CountsUnheardIffWraps(iterations: nat)
    requires iterations < WORD
    ensures CountsUnheard(iterations) <==> iterations == WORD - 1
  {
    if iterations == WORD - 1 {
      var u := AsksForRoundZero();
      RanLeads(Boot(iterations), u, TheMain);
      assert Unheard(Ran(u, TheMain));
    } else {
      forall run: seq<Label> ensures !Unheard(Exec(Boot(iterations), run)) {
        ReportedPacketsArrived(iterations, run, 0);
      }
    }
  }

  /** Main takes a probe for delivered that never arrived. */
  predicate Fooled(s: System) {
    s.main.pc.AwaitProbe? && AwaitPacket(s.mem, 2 * s.main.n + 1, s.main.pc.polls, 100).Arrived? &&
    2 * s.main.n + 1 !in s.rx.got
  }

  ghost predicate ProbeMisled(iterations: nat) {
    exists run: seq<Label> :: Fooled(Exec(Boot(iterations), run))
  }

  /** The state file of a destination that missed: overloaded without a connection. */
  function Missed(): Answer { Answer(0, false, 0, true, 0, 1, 1, 1) }

  function Probing(s: System): System {
    s.(main := s.main.(pc := AwaitProbe(0), completed := Bump(s.main.completed), misses := Bump(s.main.misses)))
  }

  lemma ProbeGoesOut(s: System)
    requires s.main.pc.AwaitRacing? && s.mem.lastSeen >= 2 * s.main.n
    ensures Leads(s, Probing(s))
  {
    LeadsNowhere(s);
    var s1 := Next(s, Run(TheMain, Missed()));
    var s2 := Next(s1, Run(TheMain, Missed()));
    var s3 := Next(s2, Run(TheMain, Missed()));
    LeadsOn(s, s, Run(TheMain, Missed()));
    LeadsOn(s, s1, Run(TheMain, Missed()));
    LeadsOn(s, s2, Run(TheMain, Missed()));
    LeadsOn(s, s3, Run(TheMain, Missed()));
  }

  /** Round 0 passes without its packet, on the last one noted. */
  lemma ReachesRoundOne() returns (v: System)
    ensures Leads(Boot(WORD - 1), v) && v.main.n == 1 && Between(v, 1)
    ensures v.mem.lastSeen == 2 * (WORD - 1)
  {
    var t := ReachesRoundZero();
    var u := Asking(Sent1(Edited1(Released(t))));
    RoundAsks(t);
    MainGoesOn(u);
    v := Next1(u);
    LeadsThrough(Boot(WORD - 1), t, u);
    LeadsThrough(Boot(WORD - 1), u, v);
  }

  /** After the wrap the last packet of the old rounds passes for the probe of round 1. */
  lemma LastCountFools()
    ensures ProbeMisled(WORD - 1)
  {
    var v := ReachesRoundOne();
    var w := Asking(Sent1(Edited1(Released(v))));
    RoundAsks(v);
    ProbeGoesOut(w);
    LeadsThrough(Boot(WORD - 1), v, w);
    LeadsThrough(Boot(WORD - 1), w, Probing(w));
    assert Fooled(Probing(w));
  }

  /** And exactly the last count has such a run. */
  lemma ProbeMisledIffWraps(iterations: nat)
    requires iterations < WORD
    ensures ProbeMisled(iterations) <==> iterations == WORD - 1
  {
    if iterations == WORD - 1 {
      LastCountFools();
    } else {
      forall run: seq<Label> ensures !Fooled(Exec(Boot(iterations), run)) {
        var s := Exec(Boot(iterations), run);
        if s.main.pc.AwaitProbe? { ReportedPacketsArrived(iterations, run, s.main.pc.polls); }
      }
    }
  }

  /** The calls are those of rounds 1, 2, 3 and so on, not only modulo 2^32. */
  predicate Numbered(calls: seq<Report>) {
    forall i :: 0 <= i < |calls| ==> calls[i].round == i + 1
  }

  ghost predicate AlwaysNumbered(iterations: nat) {
    forall run: seq<Label> ::
      Numbered(Exec(Boot(iterations), run).ed.calls) && Numbered(Exec(Boot(iterations), run).tx.calls)
  }

  /** And exactly at the last one a worker can repeat a round. */
  lemma NumberedIffNoWrap(iterations: nat)
    requires iterations < WORD
    ensures AlwaysNumbered(iterations) <==> iterations < WORD - 1
  {
    if iterations == WORD - 1 {
      var u := AsksForRoundZero();
      var run: seq<Label> :| Exec(Boot(iterations), run) == u;
      assert !Numbered(Exec(Boot(iterations), run).ed.calls);
    } else {
      forall run: seq<Label>
        ensures Numbered(Exec(Boot(iterations), run).ed.calls) && Numbered(Exec(Boot(iterations), run).tx.calls)
      {
        RoundsRunOnce(iterations, run);
      }
    }
  }
}
