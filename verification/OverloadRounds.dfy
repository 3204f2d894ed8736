/** The round barrier, and with it: no run of the fenced program counts a miss. */
module OverloadRounds {
  import opened StoreBuffer
  import opened OverloadFlag
  import opened OverloadSafety
  import opened OverloadHarness

  /** Main owns the destination: it is resetting it and the epoch of this round
      has not reached memory. */
  predicate Resetting(s: System) {
    !(s.main.pc.AwaitBind? || s.main.pc.AwaitEdit? || s.main.pc.Inspect?) || s.main.buf != []
  }

  predicate Resting(w: Worker, n: nat) {
    w.n == n && w.waiting && w.th.pc == Idle && w.th.buf == []
  }

  /** The values that main's stores up to pc leave for a reader behind them. */
  predicate Reset(h: Setup, m: Mem, buf: Buffer, pc: MainPc) {
    && (!pc.PutTotal? ==> Load(m, buf, Total) == h.Total0())
    && (!pc.PutTotal? && !pc.PutU0? ==> Load(m, buf, U) == h.U0())
    && (!pc.PutTotal? && !pc.PutU0? && !pc.PutL0? ==> Load(m, buf, L) == h.L0())
    && (pc.PutFlags0? || pc.PutEpoch? || pc.AwaitBind? ==> Load(m, buf, Lv) == h.Lv0())
    && (pc.PutEpoch? || pc.AwaitBind? ==> Load(m, buf, Flags) == h.Flags0())
  }

  predicate ResetWrites(buf: Buffer) {
    forall w :: w in buf ==> w.loc == Total || w.loc == U || w.loc == L || w.loc == Lv || w.loc == Flags
  }

  predicate ResetPhase(h: Setup, s: System) {
    var n := s.main.n;
    && Resetting(s)
    && n <= h.iterations && (!s.main.pc.PutTotal? ==> n < h.iterations)
    && Resting(s.b, n) && Resting(s.e, n)
    && s.mem.lock == 0 && s.mem.epoch == n && s.mem.doneBind == n && s.mem.doneEdit == n
    && (s.main.pc.PutTotal? ==> s.main.buf == [])
    && Reset(h, s.mem, s.main.buf, s.main.pc)
    && if s.main.pc.AwaitBind? then
         s.main.buf[|s.main.buf| - 1] == Write(Epoch, n + 1) && ResetWrites(s.main.buf[..|s.main.buf| - 1])
       else !s.main.pc.AwaitEdit? && !s.main.pc.Inspect? && ResetWrites(s.main.buf)
  }

  /** How far a worker is with the round, and where its report is. */
  predicate Progress(w: Worker, n: nat, done: Loc, reported: nat) {
    && (w.waiting ==> w.th.pc == Idle)
    && if w.n == n then
         reported == n && NoReport(w.th.buf) && (w.waiting ==> w.th.buf == [])
       else
         && w.n == n + 1 && w.waiting
         && if w.th.buf == [] then reported == n + 1
            else reported == n && w.th.buf[|w.th.buf| - 1] == Write(done, n + 1)
                 && (forall i :: 0 <= i < |w.th.buf| - 1 ==> Dest(w.th.buf[i].loc))
  }

  predicate NoReport(buf: Buffer) {
    forall i :: 0 <= i < |buf| ==> Dest(buf[i].loc)
  }

  predicate BeforeCount(w: Worker, n: nat) { w.n == n && (w.waiting || w.th.pc.Count?) }

  predicate BeforePublish(w: Worker, n: nat) {
    w.n == n && (w.waiting || w.th.pc.CheckU? || w.th.pc.CheckL? || w.th.pc.Acquire?)
  }

  function Both(s: System): State { State(s.mem, [s.b.th, s.e.th], false) }

  /** The thresholds as the editor sees them: main's until it publishes, its own
      from then on. */
  predicate Thresholds(h: Setup, m: Mem, e: Worker, n: nat) {
    var t := e.th;
    && (t.pc.CheckL? ==> h.unbind)
    && (if BeforePublish(e, n) then t.buf == [] && m.u == h.U0() && m.l == h.L0() && m.lv == h.Lv0()
        else
          && (t.pc.PutU? || Load(m, t.buf, U) == 100)
          && (t.pc.PutU? || t.pc.PutL? || Load(m, t.buf, L) == if h.unbind then 75 else 0)
          && (t.pc.PutU? || t.pc.PutL? || t.pc.PutLv? || Load(m, t.buf, Lv) == 75))
  }

  /** The barrier and the books of a round: reports, count and thresholds. */
  predicate Books(h: Setup, s: System) {
    var n := s.main.n;
    && !Resetting(s) && n < h.iterations && s.mem.epoch == n + 1
    && Progress(s.b, n, DoneBind, s.mem.doneBind)
    && Progress(s.e, n, DoneEdit, s.mem.doneEdit)
    && (!s.b.waiting ==> s.b.th.op == h.Count())
    && (!s.e.waiting ==> s.e.th.op == h.Edit())
    && s.mem.total == (if BeforeCount(s.b, n) then h.Total0() else Counted(h.Count(), h.Total0()))
    && Thresholds(h, s.mem, s.e, n)
    && NoThreshold(s.b.th.buf)
    && (s.b.waiting && s.b.n == n && s.e.waiting && s.e.n == n ==> s.mem.flags == h.Flags0())
    && (s.main.pc.AwaitEdit? || s.main.pc.Inspect? ==> s.mem.doneBind == n + 1)
    && (s.main.pc.Inspect? ==> s.mem.doneEdit == n + 1)
  }

  predicate WorkPhase(h: Setup, s: System, o: int) {
    Books(h, s) && Inv(h.c, Both(s), o)
  }

  predicate Good(h: Setup, s: System, o: int) {
    && (h.c.Ordered() ==> s.main.misses == 0)
    && (!h.c.tso ==> s.main.buf == [])
    && (ResetPhase(h, s) || WorkPhase(h, s, o))
  }

  // ----- main

  /** A store of main, buffered or direct, is what main's readers see next. */
  lemma MainStoreView(h: Setup, s: System, x: Loc, v: nat, pc: MainPc)
    requires !h.c.tso ==> s.main.buf == []
    ensures
      var s' := MainStore(h, s, x, v, pc);
      && Load(s'.mem, s'.main.buf, Total) == (if x == Total then v else Load(s.mem, s.main.buf, Total))
      && Load(s'.mem, s'.main.buf, U) == (if x == U then v else Load(s.mem, s.main.buf, U))
      && Load(s'.mem, s'.main.buf, L) == (if x == L then v else Load(s.mem, s.main.buf, L))
      && Load(s'.mem, s'.main.buf, Lv) == (if x == Lv then v else Load(s.mem, s.main.buf, Lv))
      && Load(s'.mem, s'.main.buf, Flags) == (if x == Flags then v else Load(s.mem, s.main.buf, Flags))
  {
    var w := Write(x, v);
    LoadAfterStore(s.mem, s.main.buf, w, Total);
    LoadAfterStore(s.mem, s.main.buf, w, U);
    LoadAfterStore(s.mem, s.main.buf, w, L);
    LoadAfterStore(s.mem, s.main.buf, w, Lv);
    LoadAfterStore(s.mem, s.main.buf, w, Flags);
  }

  lemma ResetStoreKeeps(h: Setup, s: System)
    requires ResetPhase(h, s) && s.main.n < h.iterations && (!h.c.tso ==> s.main.buf == [])
    requires s.main.pc.PutTotal? || s.main.pc.PutU0? || s.main.pc.PutL0? || s.main.pc.PutLv0? || s.main.pc.PutFlags0?
    ensures ResetPhase(h, MainStep(h, s))
  {
    match s.main.pc
    case PutTotal => MainStoreView(h, s, Total, h.Total0(), PutU0);
    case PutU0 => MainStoreView(h, s, U, h.U0(), PutL0);
    case PutL0 => MainStoreView(h, s, L, h.L0(), PutLv0);
    case PutLv0 => MainStoreView(h, s, Lv, h.Lv0(), PutFlags0);
    case PutFlags0 => MainStoreView(h, s, Flags, h.Flags0(), PutEpoch);
  }

  /** The destination as main leaves it is a good start for both workers. */
  lemma RoundStarts(h: Setup, s: System)
    requires Resting(s.b, s.main.n) && Resting(s.e, s.main.n)
    requires s.mem.lock == 0 && s.mem.total == h.Total0() && s.mem.u == h.U0() && s.mem.l == h.L0()
    requires s.mem.lv == h.Lv0() && s.mem.flags == h.Flags0()
    requires s.main.buf == [] && s.main.pc.AwaitBind? && s.main.n < h.iterations
    requires s.mem.epoch == s.main.n + 1 && s.mem.doneBind == s.main.n && s.mem.doneEdit == s.main.n
    ensures WorkPhase(h, s, -1)
  {
    StartsGood(h.c, Both(s));
  }

  lemma EpochStoreBuffered(h: Setup, s: System)
    requires ResetPhase(h, s) && s.main.pc.PutEpoch? && h.c.tso
    ensures ResetPhase(h, MainStep(h, s))
  {
    MainStoreView(h, s, Epoch, s.main.n + 1, AwaitBind);
    assert (s.main.buf + [Write(Epoch, s.main.n + 1)])[..|s.main.buf|] == s.main.buf;
  }

  lemma EpochStoreDirect(h: Setup, s: System)
    requires ResetPhase(h, s) && s.main.pc.PutEpoch? && !h.c.tso && s.main.buf == []
    ensures WorkPhase(h, MainStep(h, s), -1)
  {
    RoundStarts(h, MainStep(h, s));
  }

  lemma ResetWaitKeeps(h: Setup, s: System, o: int)
    requires Good(h, s, o) && ResetPhase(h, s) && s.main.pc.AwaitBind?
    ensures MainStep(h, s) == s
  {
    var buf := s.main.buf;
    forall w | w in buf ensures w.loc != DoneBind {
      assert w in buf[..|buf| - 1] || w == buf[|buf| - 1];
    }
    LoadFromMemory(s.mem, buf, DoneBind);
  }

  lemma ResetDrainKeeps(h: Setup, s: System)
    requires ResetPhase(h, s) && s.main.buf != []
    ensures
      var s' := Choose(h, s, DrainMain);
      ResetPhase(h, s') || WorkPhase(h, s', -1)
  {
    var buf := s.main.buf;
    var s' := Choose(h, s, DrainMain);
    LoadAfterDrain(s.mem, buf, Total);
    LoadAfterDrain(s.mem, buf, U);
    LoadAfterDrain(s.mem, buf, L);
    LoadAfterDrain(s.mem, buf, Lv);
    LoadAfterDrain(s.mem, buf, Flags);
    if s.main.pc.AwaitBind? {
      if |buf| == 1 {
        RoundStarts(h, s');
      } else {
        var init := buf[..|buf| - 1];
        assert init[0] == buf[0] && init[0] in init;
        assert buf[1..][..|buf[1..]| - 1] == init[1..];
      }
    } else {
      assert buf[0] in buf;
    }
  }

  /** Both reports are in memory, so everything before them is: the destination
      is at rest and its flag is right. */
  lemma InspectKeeps(h: Setup, s: System, o: int)
    requires Good(h, s, o) && WorkPhase(h, s, o) && s.main.pc.Inspect?
    ensures s.b.th.buf == [] && s.e.th.buf == [] && s.b.waiting && s.e.waiting
    ensures h.c.Ordered() ==> s.mem.flags == h.Expected()
    ensures Good(h, MainStep(h, s), o)
  {
    assert ThreadOk(h.c, s.mem, Both(s).threads[0], 0 == o);
    assert ThreadOk(h.c, s.mem, Both(s).threads[1], 1 == o);
    assert o == -1;
    assert !exists i :: 0 <= i < 2 && Pending(s.mem, Both(s).threads[i]);
    assert h.c.Ordered() ==> Promised(Both(s), o);
  }

  lemma MainKeeps(h: Setup, s: System, o: int) returns (o': int)
    requires Good(h, s, o)
    ensures Good(h, MainStep(h, s), o')
  {
    o' := o;
    if WorkPhase(h, s, o) {
      if s.main.pc.Inspect? { InspectKeeps(h, s, o); }
    } else if s.main.pc.PutEpoch? {
      if h.c.tso { EpochStoreBuffered(h, s); } else { EpochStoreDirect(h, s); }
      o' := -1;
    } else if s.main.pc.AwaitBind? {
      ResetWaitKeeps(h, s, o);
    } else if s.main.n < h.iterations {
      ResetStoreKeeps(h, s);
    }
  }

  // ----- workers

  lemma AppendLeaving(buf: Buffer, w: Write)
    requires Leaving(buf) && !Dest(w.loc)
    ensures Leaving(buf + [w])
  {
    if buf[0].loc == Lock {
      assert (buf + [w])[1..] == buf[1..] + [w];
    } else {
      assert (buf + [w])[1..] == buf[1..] + [w];
      assert (buf + [w])[..1] == buf[..1];
      AppendLeaving(buf[1..], w);
    }
  }

  /** Storing a report behind everything else disturbs nothing. */
  lemma ReportKeeps(c: Config, s: State, s': State, o: int, i: nat, x: Loc, v: nat)
    requires Inv(c, s, o) && i < |s.threads| && s.threads[i].pc == Idle && !Dest(x)
    requires |s'.threads| == |s.threads| && s'.threads == s.threads[i := s'.threads[i]] && s'.wrapped == s.wrapped
    requires (s'.mem, s'.threads[i]) == Store(c, s.mem, s.threads[i], x, v, Idle)
    ensures Inv(c, s', o)
  {
    if o >= 0 && o != i {
      OwnerFrame(s, s', o);
    }
    if o == i && c.tso {
      AppendLeaving(s.threads[i].buf, Write(x, v));
      LoadAfterStore(s.mem, s.threads[i].buf, Write(x, v), Flags);
    }
    if c.Ordered() && !s.wrapped && exists j :: 0 <= j < |s.threads| && Pending(s.mem, s.threads[j]) {
      KeepPending(s, s', i);
    }
  }

  lemma ProgressAfterReport(h: Setup, m: Mem, w: Worker, n: nat, done: Loc)
    requires Progress(w, n, done, Get(m, done)) && w.n == n && !w.waiting && w.th.pc == Idle
    requires !h.c.tso ==> w.th.buf == []
    ensures
      var (m', t') := Store(h.c, m, w.th, done, n + 1, Idle);
      Progress(Worker(n + 1, true, t'), n, done, Get(m', done))
  {
  }

  lemma ProgressAfterDrain(m: Mem, w: Worker, n: nat, done: Loc)
    requires Progress(w, n, done, Get(m, done)) && w.th.buf != [] && !Dest(done)
    ensures
      var (m', t') := DrainOne(m, w.th);
      Progress(w.(th := t'), n, done, Get(m', done))
  {
  }

  /** A worker's buffer never holds the epoch or the other worker's report. */
  lemma WorkerSees(m: Mem, w: Worker, n: nat, done: Loc, x: Loc)
    requires Progress(w, n, done, Get(m, done)) && !Dest(x) && x != done
    ensures Load(m, w.th.buf, x) == Get(m, x)
    ensures w.th.buf != [] ==> w.th.buf[0].loc != x
  {
    LoadFromMemory(m, w.th.buf, x);
  }

  lemma BindStarts(h: Setup, s: System, o: int)
    requires WorkPhase(h, s, o) && s.b.waiting && s.b.n == s.main.n
    ensures WorkPhase(h, Choose(h, s, RunBind), o)
  {
    var s' := Choose(h, s, RunBind);
    WorkerSees(s.mem, s.b, s.main.n, DoneBind, Epoch);
    BeginKeeps(h.c, Both(s), o, 0, h.Count());
    assert Next(h.c, Both(s), Begin(0, h.Count())) == Both(s');
  }

  lemma ThresholdsFrame(h: Setup, m: Mem, m': Mem, e: Worker, n: nat)
    requires Thresholds(h, m, e, n) && m'.u == m.u && m'.l == m.l && m'.lv == m.lv
    ensures Thresholds(h, m', e, n)
  {
    LoadFrame(m, m', e.th.buf, U);
    LoadFrame(m, m', e.th.buf, L);
    LoadFrame(m, m', e.th.buf, Lv);
  }

  lemma BindReportsBooks(h: Setup, s: System)
    requires Books(h, s) && !s.b.waiting && s.b.th.pc == Idle && (!h.c.tso ==> s.b.th.buf == [])
    ensures Books(h, Choose(h, s, RunBind))
  {
    ProgressAfterReport(h, s.mem, s.b, s.main.n, DoneBind);
    ThresholdsFrame(h, s.mem, Choose(h, s, RunBind).mem, s.e, s.main.n);
  }

  lemma BindReportsInv(h: Setup, s: System, s': System, o: int)
    requires Inv(h.c, Both(s), o) && s.b.th.pc == Idle && s'.e == s.e
    requires (s'.mem, s'.b.th) == Store(h.c, s.mem, s.b.th, DoneBind, s.b.n + 1, Idle)
    ensures Inv(h.c, Both(s'), o)
  {
    assert Both(s').threads == Both(s).threads[0 := s'.b.th];
    ReportKeeps(h.c, Both(s), Both(s'), o, 0, DoneBind, s.b.n + 1);
  }

  lemma BindReports(h: Setup, s: System, o: int)
    requires WorkPhase(h, s, o) && !s.b.waiting && s.b.th.pc == Idle
    ensures WorkPhase(h, Choose(h, s, RunBind), o)
  {
    assert ThreadOk(h.c, s.mem, Both(s).threads[0], 0 == o);
    BindReportsBooks(h, s);
    BindReportsInv(h, s, Choose(h, s, RunBind), o);
  }

  /** What one instruction of a worker can change. */
  lemma StepTouches(c: Config, m: Mem, t: Thread)
    ensures
      var (m', t') := Step(c, m, t);
      && t'.op == t.op
      && (NoReport(t.buf) ==> NoReport(t'.buf))
      && m'.epoch == m.epoch && m'.doneBind == m.doneBind && m'.doneEdit == m.doneEdit
      && (!t.pc.Count? ==> m'.total == m.total)
      && (!Publishing(t.pc) ==> m'.u == m.u && m'.l == m.l && m'.lv == m.lv)
      && (t'.pc.Count? ==> t' == t && m' == m)
      && (NoThreshold(t.buf) && !Publishing(t.pc) ==> NoThreshold(t'.buf))
  {
  }

  lemma BindRunsBooks(h: Setup, s: System)
    requires Books(h, s) && !s.b.waiting && s.b.th.pc != Idle && !Publishing(s.b.th.pc)
    ensures Books(h, Choose(h, s, RunBind))
  {
    StepTouches(h.c, s.mem, s.b.th);
    ThresholdsFrame(h, s.mem, Choose(h, s, RunBind).mem, s.e, s.main.n);
  }

  lemma BindRuns(h: Setup, s: System, o: int) returns (o': int)
    requires WorkPhase(h, s, o) && !s.b.waiting && s.b.th.pc != Idle
    ensures WorkPhase(h, Choose(h, s, RunBind), o')
  {
    assert ThreadOk(h.c, s.mem, Both(s).threads[0], 0 == o);
    BindRunsBooks(h, s);
    o' := RunKeeps(h.c, Both(s), o, 0);
    assert Next(h.c, Both(s), Run(0)).threads == Both(Choose(h, s, RunBind)).threads;
  }

  lemma EditStarts(h: Setup, s: System, o: int)
    requires WorkPhase(h, s, o) && s.e.waiting && s.e.n == s.main.n
    ensures WorkPhase(h, Choose(h, s, RunEdit), o)
  {
    var s' := Choose(h, s, RunEdit);
    WorkerSees(s.mem, s.e, s.main.n, DoneEdit, Epoch);
    BeginKeeps(h.c, Both(s), o, 1, h.Edit());
    assert Next(h.c, Both(s), Begin(1, h.Edit())) == Both(s');
  }

  /** A store of the editor elsewhere leaves its view of the thresholds alone. */
  lemma StoreElsewhere(c: Config, m: Mem, t: Thread, x: Loc, v: nat, pc: Pc, y: Loc)
    requires y != x && (!c.tso ==> t.buf == [])
    ensures var (m', t') := Store(c, m, t, x, v, pc); Load(m', t'.buf, y) == Load(m, t.buf, y)
  {
    LoadAfterStore(m, t.buf, Write(x, v), y);
  }

  lemma ThresholdsAfterReport(h: Setup, m: Mem, e: Worker, n: nat)
    requires Thresholds(h, m, e, n) && e.n == n && !e.waiting && e.th.pc == Idle
    requires !h.c.tso ==> e.th.buf == []
    ensures var (m', t') := Store(h.c, m, e.th, DoneEdit, n + 1, Idle); Thresholds(h, m', Worker(n + 1, true, t'), n)
  {
    StoreElsewhere(h.c, m, e.th, DoneEdit, n + 1, Idle, U);
    StoreElsewhere(h.c, m, e.th, DoneEdit, n + 1, Idle, L);
    StoreElsewhere(h.c, m, e.th, DoneEdit, n + 1, Idle, Lv);
  }

  lemma EditReportsBooks(h: Setup, s: System)
    requires Books(h, s) && !s.e.waiting && s.e.th.pc == Idle && (!h.c.tso ==> s.e.th.buf == [])
    ensures Books(h, Choose(h, s, RunEdit))
  {
    ProgressAfterReport(h, s.mem, s.e, s.main.n, DoneEdit);
    ThresholdsAfterReport(h, s.mem, s.e, s.main.n);
  }

  lemma EditReportsInv(h: Setup, s: System, s': System, o: int)
    requires Inv(h.c, Both(s), o) && s.e.th.pc == Idle && s'.b == s.b
    requires (s'.mem, s'.e.th) == Store(h.c, s.mem, s.e.th, DoneEdit, s.e.n + 1, Idle)
    ensures Inv(h.c, Both(s'), o)
  {
    assert Both(s').threads == Both(s).threads[1 := s'.e.th];
    ReportKeeps(h.c, Both(s), Both(s'), o, 1, DoneEdit, s.e.n + 1);
  }

  lemma EditReports(h: Setup, s: System, o: int)
    requires WorkPhase(h, s, o) && !s.e.waiting && s.e.th.pc == Idle
    ensures WorkPhase(h, Choose(h, s, RunEdit), o)
  {
    assert ThreadOk(h.c, s.mem, Both(s).threads[1], 1 == o);
    EditReportsBooks(h, s);
    EditReportsInv(h, s, Choose(h, s, RunEdit), o);
  }

  /** The edit is never skipped, and the editor keeps seeing what it published. */
  lemma EditPublishes(h: Setup, m: Mem, e: Worker, n: nat, owner: bool)
    requires ThreadOk(h.c, m, e.th, owner) && Thresholds(h, m, e, n)
    requires e.n == n && !e.waiting && e.th.pc != Idle && e.th.op == h.Edit()
    ensures
      var (m', t') := Step(h.c, m, e.th);
      !e.th.pc.Count? && Thresholds(h, m', e.(th := t'), n)
  {
    var t := e.th;
    match t.pc
    case PutU => StoreThreshold(h.c, m, t, U, t.op.u, PutL);
    case PutL => StoreThreshold(h.c, m, t, L, t.op.l, PutLv);
    case PutLv =>
      StoreThreshold(h.c, m, t, Lv, t.op.lv, Barrier);
      StoreElsewhere(h.c, m, t, Lv, t.op.lv, Barrier, L);
    case PutFlags(v) =>
      StoreElsewhere(h.c, m, t, Flags, v, Release, U);
      StoreElsewhere(h.c, m, t, Flags, v, Release, L);
      StoreElsewhere(h.c, m, t, Flags, v, Release, Lv);
    case Release =>
      StoreElsewhere(h.c, m, t, Lock, 0, Idle, U);
      StoreElsewhere(h.c, m, t, Lock, 0, Idle, L);
      StoreElsewhere(h.c, m, t, Lock, 0, Idle, Lv);
    case _ =>
  }

  lemma EditRunsBooks(h: Setup, s: System, o: int)
    requires Books(h, s) && !s.e.waiting && s.e.th.pc != Idle
    requires ThreadOk(h.c, s.mem, s.e.th, 1 == o)
    ensures Books(h, Choose(h, s, RunEdit))
  {
    StepTouches(h.c, s.mem, s.e.th);
    EditPublishes(h, s.mem, s.e, s.main.n, 1 == o);
  }

  lemma EditRuns(h: Setup, s: System, o: int) returns (o': int)
    requires WorkPhase(h, s, o) && !s.e.waiting && s.e.th.pc != Idle
    ensures WorkPhase(h, Choose(h, s, RunEdit), o')
  {
    assert ThreadOk(h.c, s.mem, Both(s).threads[1], 1 == o);
    EditRunsBooks(h, s, o);
    o' := RunKeeps(h.c, Both(s), o, 1);
    assert Next(h.c, Both(s), Run(1)).threads == Both(Choose(h, s, RunEdit)).threads;
  }

  lemma BindDrainBooks(h: Setup, s: System, o: int)
    requires WorkPhase(h, s, o) && s.b.th.buf != []
    ensures Books(h, Choose(h, s, DrainBind))
  {
    assert ThreadOk(h.c, s.mem, Both(s).threads[0], 0 == o);
    ProgressAfterDrain(s.mem, s.b, s.main.n, DoneBind);
    WorkerSees(s.mem, s.b, s.main.n, DoneBind, Epoch);
    WorkerSees(s.mem, s.b, s.main.n, DoneBind, DoneEdit);
    OldestIsNotTotal(h.c, s.mem, s.b.th, 0 == o);
    assert s.b.th.buf[0] in s.b.th.buf;
    ThresholdsFrame(h, s.mem, Choose(h, s, DrainBind).mem, s.e, s.main.n);
  }

  lemma ThresholdsAfterDrain(h: Setup, m: Mem, e: Worker, n: nat)
    requires Thresholds(h, m, e, n) && e.th.buf != []
    ensures var (m', t') := DrainOne(m, e.th); Thresholds(h, m', e.(th := t'), n)
  {
    LoadAfterDrain(m, e.th.buf, U);
    LoadAfterDrain(m, e.th.buf, L);
    LoadAfterDrain(m, e.th.buf, Lv);
  }

  /** A store of the editor touches no other counter. */
  lemma EditDrainElsewhere(h: Setup, s: System, o: int)
    requires WorkPhase(h, s, o) && s.e.th.buf != []
    ensures
      var m := Choose(h, s, DrainEdit).mem;
      m.epoch == s.mem.epoch && m.doneBind == s.mem.doneBind && m.total == s.mem.total
  {
    assert ThreadOk(h.c, s.mem, Both(s).threads[1], 1 == o);
    WorkerSees(s.mem, s.e, s.main.n, DoneEdit, Epoch);
    WorkerSees(s.mem, s.e, s.main.n, DoneEdit, DoneBind);
    OldestIsNotTotal(h.c, s.mem, s.e.th, 1 == o);
  }

  lemma EditDrainBooks(h: Setup, s: System, o: int)
    requires WorkPhase(h, s, o) && s.e.th.buf != []
    ensures Books(h, Choose(h, s, DrainEdit))
  {
    EditDrainElsewhere(h, s, o);
    ProgressAfterDrain(s.mem, s.e, s.main.n, DoneEdit);
    ThresholdsAfterDrain(h, s.mem, s.e, s.main.n);
  }

  lemma OldestIsNotTotal(c: Config, m: Mem, t: Thread, owner: bool)
    requires ThreadOk(c, m, t, owner) && t.buf != []
    ensures t.buf[0].loc != Total
  {
    assert t.buf[0] in t.buf;
  }

  lemma WorkerDrainKeeps(h: Setup, s: System, o: int, a: Choice) returns (o': int)
    requires WorkPhase(h, s, o) && (a.DrainBind? || a.DrainEdit?)
    ensures WorkPhase(h, Choose(h, s, a), o')
  {
    o' := o;
    var s' := Choose(h, s, a);
    if (if a.DrainBind? then s.b else s.e).th.buf != [] {
      if a.DrainBind? { BindDrainBooks(h, s, o); } else { EditDrainBooks(h, s, o); }
      var i := if a.DrainBind? then 0 else 1;
      o' := NextKeeps(h.c, Both(s), o, Drain(i));
      assert Next(h.c, Both(s), Drain(i)).threads == Both(s').threads;
    }
  }

  lemma WorkKeeps(h: Setup, s: System, o: int, a: Choice) returns (o': int)
    requires WorkPhase(h, s, o) && !a.RunMain?
    ensures WorkPhase(h, Choose(h, s, a), o')
  {
    o' := o;
    match a
    case RunBind =>
      if s.b.waiting {
        if s.b.n == s.main.n { BindStarts(h, s, o); }
        else { WorkerSees(s.mem, s.b, s.main.n, DoneBind, Epoch); }
      } else if s.b.th.pc == Idle {
        BindReports(h, s, o);
      } else {
        o' := BindRuns(h, s, o);
      }
    case RunEdit =>
      if s.e.waiting {
        if s.e.n == s.main.n { EditStarts(h, s, o); }
        else { WorkerSees(s.mem, s.e, s.main.n, DoneEdit, Epoch); }
      } else if s.e.th.pc == Idle {
        EditReports(h, s, o);
      } else {
        o' := EditRuns(h, s, o);
      }
    case DrainMain =>
    case DrainBind => o' := WorkerDrainKeeps(h, s, o, a);
    case DrainEdit => o' := WorkerDrainKeeps(h, s, o, a);
  }

  lemma ChooseKeeps(h: Setup, s: System, o: int, a: Choice) returns (o': int)
    requires Good(h, s, o)
    ensures Good(h, Choose(h, s, a), o')
  {
    o' := o;
    if a.RunMain? {
      o' := MainKeeps(h, s, o);
    } else if WorkPhase(h, s, o) {
      o' := WorkKeeps(h, s, o, a);
    } else if a.DrainMain? && s.main.buf != [] {
      ResetDrainKeeps(h, s);
      o' := -1;
    }
  }

  lemma {:induction false} PlayKeeps(h: Setup, s: System, o: int, choices: seq<Choice>) returns (o': int)
    requires Good(h, s, o)
    ensures Good(h, Play(h, s, choices), o')
    decreases |choices|
  {
    if choices == [] {
      o' := o;
    } else {
      var p := ChooseKeeps(h, s, o, choices[0]);
      o' := PlayKeeps(h, Choose(h, s, choices[0]), p, choices[1..]);
    }
  }

  // ----- the theorems

  /** For both events and any number of rounds, under every schedule. */
  lemma FencedRunsNeverMiss(h: Setup, choices: seq<Choice>)
    requires h.c.Ordered()
    ensures Play(h, Boot(), choices).main.misses == 0
  {
    assert ResetPhase(h, Boot());
    var o := PlayKeeps(h, Boot(), -1, choices);
  }

  /** Fenced or not: the done counters in memory trail main by at most one round, and lead
      neither the epoch nor main. */
  lemma RoundBarrier(h: Setup, choices: seq<Choice>)
    ensures
      var s := Play(h, Boot(), choices);
      && s.main.n <= h.iterations
      && s.main.n <= s.mem.doneBind <= s.mem.epoch <= s.main.n + 1
      && s.main.n <= s.mem.doneEdit <= s.mem.epoch
  {
    assert ResetPhase(h, Boot());
    var o := PlayKeeps(h, Boot(), -1, choices);
  }

  /** Fenced or not: while any reset store of main is still to be made or to reach memory, no
      worker is at work and none has anything buffered. */
  lemma ResetNeverOverlaps(h: Setup, choices: seq<Choice>)
    ensures
      var s := Play(h, Boot(), choices);
      Resetting(s) ==> Resting(s.b, s.main.n) && Resting(s.e, s.main.n) && s.mem.lock == 0
  {
    assert ResetPhase(h, Boot());
    var o := PlayKeeps(h, Boot(), -1, choices);
  }

  /** The destination that the workers of a round start from, for bind and for unbind. */
  lemma RoundStartsFresh(h: Setup, choices: seq<Choice>)
    ensures
      var s := Play(h, Boot(), choices);
      var n := s.main.n;
      s.mem.epoch == n + 1 && s.b.waiting && s.b.n == n && s.e.waiting && s.e.n == n ==>
        if h.unbind then
          s.mem.total == 75 && s.mem.u == 100 && s.mem.l == 50 && s.mem.lv == 50 && s.mem.flags == 2
        else
          s.mem.total == 99 && s.mem.u == 200 && s.mem.l == 0 && s.mem.lv == 150 && s.mem.flags == 0
  {
    var o := PlayKeeps(h, Boot(), -1, choices);
  }

  /** When main inspects the flag everything both workers stored is in memory:
      the new thresholds and the new count on any machine, and with them the
      right flag on an ordered one. */
  lemma InspectSeesTheRound(h: Setup, choices: seq<Choice>)
    ensures
      var s := Play(h, Boot(), choices);
      s.main.pc.Inspect? ==>
        && s.b.th.buf == [] && s.e.th.buf == [] && s.b.waiting && s.e.waiting
        && s.mem.u == 100 && s.mem.l == (if h.unbind then 75 else 0) && s.mem.lv == 75
        && s.mem.total == (if h.unbind then 74 else 100)
        && (h.c.Ordered() ==> s.mem.flags == h.Expected())
  {
    assert ResetPhase(h, Boot());
    var o := PlayKeeps(h, Boot(), -1, choices);
    if Play(h, Boot(), choices).main.pc.Inspect? {
      InspectKeeps(h, Play(h, Boot(), choices), o);
    }
  }
}
