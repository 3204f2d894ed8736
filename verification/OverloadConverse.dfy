/** The converse of the lost transition: one edit against one bind or unbind, on any
    machine, ends wrong only if the count is one that both can overlook. */
module OverloadConverse {
  import opened Prelude
  import opened StoreBuffer
  import opened OverloadFlag
  import opened OverloadSafety
  import opened OverloadBudget
  import opened OverloadDuel
  import opened OverloadMiss

  /** The memory both threads start from, and what they do. */
  datatype Match = Match(m: Mem, edit: Op, count: Op)

  predicate Fair(x: Match) {
    && x.edit.EditOp? && x.edit.lv <= x.edit.u && !x.count.EditOp?
    && x.m.lock == 0 && x.m.lv <= x.m.u && x.m.total < WORD && !Wraps(x.count, x.m.total)
    && (x.m.flags == 0 || x.m.flags == OVERLOAD) && Right(x.m.flags, x.m.u, x.m.lv, x.m.total)
  }

  function Counted1(x: Match): nat { Counted(x.count, x.m.total) }

  /** An edit that changes neither u nor l is not carried out. */
  predicate Skipped(x: Match)
    requires x.edit.EditOp?
  {
    x.m.u == x.edit.u && x.m.l == x.edit.l
  }

  // ----- where the two threads are

  predicate Undecided(pc: Pc) { pc.CheckU? || pc.CheckL? || pc.Acquire? }

  /** The editor has not stored a threshold, or never will. */
  predicate Unpublished(x: Match, pc: Pc)
    requires x.edit.EditOp?
  {
    Undecided(pc) || pc.PutU? || (pc.Idle? && Skipped(x))
  }

  predicate Judged(x: Match, pc: Pc)
    requires x.edit.EditOp?
  {
    pc.PutFlags? || pc.Release? || (pc.Idle? && !Skipped(x))
  }

  predicate EditWrites(x: Match, buf: Buffer)
    requires x.edit.EditOp?
  {
    forall w :: w in buf ==>
      Dest(w.loc) && (w.loc == U ==> w.val == x.edit.u) && (w.loc == Lv ==> w.val == x.edit.lv)
  }

  predicate EditorPlaced(x: Match, m: Mem, e: Thread)
    requires x.edit.EditOp?
  {
    && e.op == x.edit && EditWrites(x, e.buf)
    && (Skipped(x) ==> e.pc.CheckU? || e.pc.CheckL? || e.pc.Idle?)
    && (e.pc.CheckL? ==> x.m.u == x.edit.u)
    && !e.pc.Count? && !e.pc.Compare?
    && (e.pc.GetLv? ==> e.pc.u == x.edit.u > 0)
    && (e.pc.GetTotal? ==> e.pc.u == x.edit.u > 0 && e.pc.lv == x.edit.lv)
    && if Unpublished(x, e.pc) then
         m.u == x.m.u && m.l == x.m.l && m.lv == x.m.lv && e.buf == []
       else
         && Load(m, e.buf, U) == x.edit.u && (m.u == x.m.u || m.u == x.edit.u)
         && (m.lv == x.m.lv || m.lv == x.edit.lv)
         && (!e.pc.PutL? && !e.pc.PutLv? ==> Load(m, e.buf, Lv) == x.edit.lv)
  }

  predicate CountWrites(buf: Buffer) {
    forall w :: w in buf ==> Dest(w.loc) && !Threshold(w.loc)
  }

  predicate CounterPlaced(x: Match, m: Mem, b: Thread) {
    && b.op == x.count && CountWrites(b.buf)
    && m.total == (if b.pc.Count? then x.m.total else Counted1(x))
    && (!b.pc.Release? && !b.pc.Idle? ==> b.buf == [])
    && (b.pc.Compare? ==> b.pc.tc == if x.count.BindOp? then Counted1(x) else x.m.total)
    && (b.pc.GetLv? ==> b.pc.u == m.u > 0)
    && (b.pc.GetTotal? ==> b.pc.u == m.u > 0 && b.pc.lv == m.lv)
    && !b.pc.CheckU? && !b.pc.CheckL? && !Publishing(b.pc)
  }

  // ----- what is promised

  function FlagOf(m: Mem, t: Thread): nat { if t.pc.PutFlags? then t.pc.v else Load(m, t.buf, Flags) }

  function Verdict(x: Match): nat
    requires x.edit.EditOp?
  {
    if x.edit.u == 0 then 0
    else match Judge(x.edit, x.edit.u, x.edit.lv, x.m.total)
         case PutFlags(v) => v
         case _ => x.m.flags
  }

  /** Until the count, the flag is the old one or the editor's verdict on the old count. */
  predicate FlagsPlaced(x: Match, m: Mem, e: Thread, b: Thread)
    requires x.edit.EditOp?
  {
    b.pc.Count? ==> FlagOf(m, e) == if Judged(x, e.pc) then Verdict(x) else x.m.flags
  }

  /** The counting thread will take the lock after the count, seeing the thresholds
      that will be in memory. */
  predicate WillRepair(x: Match, m: Mem, e: Thread, b: Thread) {
    b.pc.Acquire? ||
    (b.pc.Compare? &&
     if x.count.BindOp? then b.pc.tc == m.u == Load(m, e.buf, U) else b.pc.tc == m.lv == Load(m, e.buf, Lv))
  }

  function Coming(m: Mem, e: Thread, b: Thread, o: int): nat {
    if o == 0 then FlagOf(m, e) else if o == 1 then FlagOf(m, b) else m.flags
  }

  predicate Kept(x: Match, m: Mem, e: Thread, b: Thread, o: int)
    requires x.edit.EditOp?
  {
    || (!Skipped(x) && Undecided(e.pc))
    || (o == 0 && WillRead(e.pc)) || (o == 1 && WillRead(b.pc))
    || WillRepair(x, m, e, b)
    || Right(Coming(m, e, b, o), Load(m, e.buf, U), Load(m, e.buf, Lv), m.total)
  }

  predicate Course(x: Match, m: Mem, e: Thread, b: Thread, o: int)
    requires Fair(x)
  {
    && EditorPlaced(x, m, e) && CounterPlaced(x, m, b) && FlagsPlaced(x, m, e, b)
    && (Overlooked(x.m, x.edit, x.count) || Kept(x, m, e, b, o))
  }

  // ----- who owns the lock

  lemma {:induction false} LeavingHoldsLock(buf: Buffer)
    requires Leaving(buf)
    ensures !NoDest(buf)
    decreases |buf|
  {
    if buf[0].loc == Lock {
      assert buf[0] in buf;
    } else {
      LeavingHoldsLock(buf[1..]);
      var w :| w in buf[1..] && Dest(w.loc);
      assert w in buf;
    }
  }

  predicate Owns(t: Thread) { Inside(t.pc) || Leaving(t.buf) }

  function OwnerOf(e: Thread, b: Thread): int { if Owns(e) then 0 else if Owns(b) then 1 else -1 }

  function Owner(s: State): int
    requires |s.threads| == 2
  {
    OwnerOf(s.threads[0], s.threads[1])
  }

  lemma OwnerIs(c: Config, s: State, o: int)
    requires Inv(c, s, o) && |s.threads| == 2
    ensures o == Owner(s)
  {
    var e, b := s.threads[0], s.threads[1];
    assert ThreadOk(c, s.mem, e, 0 == o) && ThreadOk(c, s.mem, b, 1 == o);
    if o != 0 && Leaving(e.buf) { LeavingHoldsLock(e.buf); }
    if o != 1 && Leaving(b.buf) { LeavingHoldsLock(b.buf); }
  }

  // ----- the count

  /** The count only matters to what has been promised. */
  lemma CountMoves(c: Config, x: Match, m: Mem, e: Thread, b: Thread)
    requires Fair(x) && EditorPlaced(x, m, e) && CounterPlaced(x, m, b) && b.pc.Count?
    ensures
      var (m', b') := Step(c, m, b);
      && EditorPlaced(x, m', e) && CounterPlaced(x, m', b') && !b'.pc.Count?
      && m' == m.(total := Counted1(x)) && b'.pc.Compare? && b'.op == b.op
      && Load(m', e.buf, U) == Load(m, e.buf, U) && Load(m', e.buf, Lv) == Load(m, e.buf, Lv)
      && FlagOf(m', e) == FlagOf(m, e)
  {
    var m' := m.(total := Counted1(x));
    LoadFrame(m, m', e.buf, U);
    LoadFrame(m, m', e.buf, Lv);
    LoadFrame(m, m', e.buf, Flags);
  }

  /** A count that makes the coming flag wrong hits the coming threshold, and if that
      is not in memory yet it is overlooked. */
  lemma CountHits(x: Match, flag: nat, u: nat, lv: nat)
    requires Fair(x) && Right(flag, u, lv, x.m.total) && !Right(flag, u, lv, Counted1(x))
    ensures if x.count.BindOp? then Counted1(x) == u else x.m.total == lv
    ensures
      u == x.edit.u && lv == x.edit.lv && flag == Verdict(x) && !Skipped(x) &&
      (if x.count.BindOp? then x.m.u != u else x.m.lv != lv) ==>
        Overlooked(x.m, x.edit, x.count)
  {
  }

  /** The only step that can break what is promised, and then the count is overlooked. */
  lemma CountStays(c: Config, x: Match, m: Mem, e: Thread, b: Thread, o: int)
    requires Fair(x) && Course(x, m, e, b, o) && b.pc.Count?
    requires if o == 0 then Owns(e) else o == -1 && !Inside(e.pc) && NoDest(e.buf)
    ensures var (m', b') := Step(c, m, b); Course(x, m', e, b', o)
  {
    CountMoves(c, x, m, e, b);
    var u, lv := Load(m, e.buf, U), Load(m, e.buf, Lv);
    if o == -1 { LoadFromMemory(m, e.buf, Flags); }
    if Right(Coming(m, e, b, o), u, lv, m.total) && !Right(Coming(m, e, b, o), u, lv, Counted1(x)) {
      CountHits(x, Coming(m, e, b, o), u, lv);
    }
  }

  // ----- the other steps of the editor

  lemma EditorLooks(c: Config, x: Match, m: Mem, e: Thread, b: Thread, o: int)
    requires Fair(x) && Course(x, m, e, b, o) && (e.pc.CheckU? || e.pc.CheckL?) && o != 0
    ensures var (m', e') := Step(c, m, e); Course(x, m', e', b, o)
  {
  }

  lemma EditorLocks(c: Config, x: Match, m: Mem, e: Thread, b: Thread, o: int)
    requires Fair(x) && Course(x, m, e, b, o) && e.pc.Acquire? && m.lock == 0
    ensures var (m', e') := Step(c, m, e); Course(x, m', e', b, 0)
  {
  }

  lemma LoadBehind(c: Config, m: Mem, t: Thread, y: Loc, v: nat, pc: Pc, z: Loc)
    requires !c.tso ==> t.buf == []
    ensures
      var (m', t') := Store(c, m, t, y, v, pc);
      Load(m', t'.buf, z) == if z == y then v else Load(m, t.buf, z)
  {
    LoadAfterStore(m, t.buf, Write(y, v), z);
  }

  /** The owner's own stores do not touch what the counting thread looks at. */
  lemma EditorPublishesU(c: Config, x: Match, m: Mem, e: Thread, b: Thread)
    requires Fair(x) && Course(x, m, e, b, 0) && e.pc.PutU? && !Owns(b)
    ensures var (m', e') := Step(c, m, e); Course(x, m', e', b, 0)
  {
    LoadBehind(c, m, e, U, x.edit.u, PutL, U);
    LoadBehind(c, m, e, U, x.edit.u, PutL, Flags);
  }

  lemma EditorPublishesL(c: Config, x: Match, m: Mem, e: Thread, b: Thread)
    requires Fair(x) && Course(x, m, e, b, 0) && e.pc.PutL? && !Owns(b) && (!c.tso ==> e.buf == [])
    ensures var (m', e') := Step(c, m, e); Course(x, m', e', b, 0)
  {
    LoadBehind(c, m, e, L, x.edit.l, PutLv, U);
    LoadBehind(c, m, e, L, x.edit.l, PutLv, Flags);
  }

  lemma EditorPublishesLv(c: Config, x: Match, m: Mem, e: Thread, b: Thread)
    requires Fair(x) && Course(x, m, e, b, 0) && e.pc.PutLv? && !Owns(b) && (!c.tso ==> e.buf == [])
    ensures var (m', e') := Step(c, m, e); Course(x, m', e', b, 0)
  {
    LoadBehind(c, m, e, Lv, x.edit.lv, Barrier, U);
    LoadBehind(c, m, e, Lv, x.edit.lv, Barrier, Lv);
    LoadBehind(c, m, e, Lv, x.edit.lv, Barrier, Flags);
  }

  lemma EditorPublishes(c: Config, x: Match, m: Mem, e: Thread, b: Thread)
    requires Fair(x) && Course(x, m, e, b, 0) && Publishing(e.pc) && !Owns(b) && (!c.tso ==> e.buf == [])
    ensures var (m', e') := Step(c, m, e); Course(x, m', e', b, 0)
  {
    match e.pc
    case PutU => EditorPublishesU(c, x, m, e, b);
    case PutL => EditorPublishesL(c, x, m, e, b);
    case PutLv => EditorPublishesLv(c, x, m, e, b);
    case _ =>
  }

  lemma EditorReads(c: Config, x: Match, m: Mem, e: Thread, b: Thread)
    requires Fair(x) && Course(x, m, e, b, 0) && Reading(e.pc) && Free(e.buf, Total)
    ensures var (m', e') := Step(c, m, e); Course(x, m', e', b, 0)
  {
    LoadFromMemory(m, e.buf, Total);
  }

  lemma EditorStoresFlag(c: Config, x: Match, m: Mem, e: Thread, b: Thread)
    requires Fair(x) && Course(x, m, e, b, 0) && e.pc.PutFlags? && !Owns(b) && NoDest(b.buf)
    requires !c.tso ==> e.buf == []
    ensures var (m', e') := Step(c, m, e); Course(x, m', e', b, 0)
  {
    LoadBehind(c, m, e, Flags, e.pc.v, Release, Flags);
    LoadBehind(c, m, e, Flags, e.pc.v, Release, U);
    LoadBehind(c, m, e, Flags, e.pc.v, Release, Lv);
  }

  lemma EditorReleases(c: Config, x: Match, m: Mem, e: Thread, b: Thread)
    requires Fair(x) && Course(x, m, e, b, 0) && e.pc.Release?
    requires !c.tso ==> e.buf == []
    ensures var (m', e') := Step(c, m, e); Course(x, m', e', b, if c.tso then 0 else -1)
  {
    LoadBehind(c, m, e, Lock, 0, Idle, Flags);
    LoadBehind(c, m, e, Lock, 0, Idle, U);
    LoadBehind(c, m, e, Lock, 0, Idle, Lv);
  }

  /** A store of the editor reaches memory. */
  lemma EditorDrained(x: Match, m: Mem, e: Thread, b: Thread, o: int, o': int)
    requires Fair(x) && Course(x, m, e, b, o) && e.buf != [] && Owns(e) && o == 0
    requires !Owns(b) && NoDest(b.buf) && e.buf[0].loc != Total
    requires if e.buf[0].loc == Lock then o' == -1 && !Inside(e.pc) && NoDest(e.buf[1..]) else o' == 0
    ensures var (m', e') := DrainOne(m, e); Course(x, m', e', b, o')
  {
    var (m', e') := DrainOne(m, e);
    assert e.buf[0] in e.buf;
    LoadAfterDrain(m, e.buf, Flags);
    LoadAfterDrain(m, e.buf, U);
    LoadAfterDrain(m, e.buf, Lv);
    if o' == -1 { LoadFromMemory(m', e'.buf, Flags); }
  }

  // ----- the other steps of the counting thread

  lemma CounterCompares(c: Config, x: Match, m: Mem, e: Thread, b: Thread, o: int)
    requires Fair(x) && Course(x, m, e, b, o) && b.pc.Compare? && b.buf == [] && o != 1
    ensures var (m', b') := Step(c, m, b); Course(x, m', e, b', o)
  {
  }

  lemma CounterLocks(c: Config, x: Match, m: Mem, e: Thread, b: Thread, o: int)
    requires Fair(x) && Course(x, m, e, b, o) && b.pc.Acquire? && b.buf == [] && m.lock == 0
    ensures var (m', b') := Step(c, m, b); Course(x, m', e, b', 1)
  {
    var (m', b') := Step(c, m, b);
    LoadFrame(m, m', e.buf, U);
    LoadFrame(m, m', e.buf, Lv);
    LoadFrame(m, m', e.buf, Flags);
  }

  lemma CounterReads(c: Config, x: Match, m: Mem, e: Thread, b: Thread)
    requires Fair(x) && Course(x, m, e, b, 1) && Reading(b.pc)
    requires b.buf == [] && NoDest(e.buf) && !Inside(e.pc)
    ensures var (m', b') := Step(c, m, b); Course(x, m', e, b', 1)
  {
    LoadFromMemory(m, e.buf, U);
    LoadFromMemory(m, e.buf, Lv);
  }

  lemma CounterFrame(x: Match, m: Mem, m': Mem, e: Thread)
    requires Fair(x) && EditorPlaced(x, m, e) && m' == m.(flags := m'.flags, lock := m'.lock)
    ensures EditorPlaced(x, m', e)
    ensures Load(m', e.buf, U) == Load(m, e.buf, U) && Load(m', e.buf, Lv) == Load(m, e.buf, Lv)
  {
    LoadFrame(m, m', e.buf, U);
    LoadFrame(m, m', e.buf, Lv);
  }

  lemma CounterStores(c: Config, x: Match, m: Mem, e: Thread, b: Thread)
    requires Fair(x) && Course(x, m, e, b, 1) && (b.pc.PutFlags? || b.pc.Release?)
    requires !c.tso ==> b.buf == []
    ensures
      var (m', b') := Step(c, m, b);
      Course(x, m', e, b', if b.pc.Release? && !c.tso then -1 else 1)
  {
    var (m', b') := Step(c, m, b);
    CounterFrame(x, m, m', e);
    if b.pc.PutFlags? {
      LoadBehind(c, m, b, Flags, b.pc.v, Release, Flags);
    } else {
      LoadBehind(c, m, b, Lock, 0, Idle, Flags);
    }
  }

  /** A store of the counting thread, of the flag or the lock, reaches memory. */
  lemma CounterDrained(x: Match, m: Mem, e: Thread, b: Thread, o: int, o': int)
    requires Fair(x) && Course(x, m, e, b, o) && b.buf != [] && Owns(b) && o == 1 && !b.pc.Count?
    requires b.buf[0].loc == Flags || b.buf[0].loc == Lock
    requires if b.buf[0].loc == Lock then o' == -1 && !Inside(b.pc) && NoDest(b.buf[1..]) else o' == 1
    ensures var (m', b') := DrainOne(m, b); Course(x, m', e, b', o')
  {
    var (m', b') := DrainOne(m, b);
    LoadAfterDrain(m, b.buf, Flags);
    CounterFrame(x, m, m', e);
    if o' == -1 { LoadFromMemory(m', b'.buf, Flags); }
  }

  // ----- runs of the two threads

  predicate NoBegin(sched: seq<Label>) { forall i :: 0 <= i < |sched| ==> !sched[i].Begin? }

  /** Both threads at the start of what they do. */
  function Ready(x: Match): State { Arena(Pair(x.m, Thread(x.edit, CheckU, []), Thread(x.count, Count, []))) }

  predicate OnCourse(c: Config, x: Match, s: State)
    requires Fair(x)
  {
    |s.threads| == 2 && Inv(c, s, Owner(s)) && Course(x, s.mem, s.threads[0], s.threads[1], Owner(s))
  }

  /** Both threads write only the destination, so only the owner has stores waiting. */
  lemma OnlyOwnerWrites(c: Config, m: Mem, t: Thread, owner: bool)
    requires ThreadOk(c, m, t, owner) && t.buf != [] && Dest(t.buf[0].loc)
    ensures owner && Owns(t) && t.buf[0].loc != Total
    ensures t.buf[0].loc == Lock ==> !Inside(t.pc) && NoDest(t.buf[1..])
    ensures !Threshold(t.buf[0].loc) ==> t.buf[0].loc == Flags || t.buf[0].loc == Lock
  {
    assert t.buf[0] in t.buf;
    if !Inside(t.pc) && t.buf[0].loc != Lock { assert t.buf[0] in t.buf[..1]; }
  }

  lemma OwnerWritesNoTotal(buf: Buffer)
    requires OwnerWrites(buf)
    ensures Free(buf, Total)
  {
  }

  /** Both threads as the lock leaves them. */
  predicate Locked(c: Config, m: Mem, e: Thread, b: Thread) {
    var o := OwnerOf(e, b);
    ThreadOk(c, m, e, 0 == o) && ThreadOk(c, m, b, 1 == o) && m.lock == if o == -1 then 0 else 1
  }

  lemma EditorRunsFree(c: Config, x: Match, m: Mem, e: Thread, b: Thread)
    requires Fair(x) && Course(x, m, e, b, OwnerOf(e, b)) && Locked(c, m, e, b) && !Inside(e.pc)
    ensures var (m', e') := Step(c, m, e); Course(x, m', e', b, OwnerOf(e', b))
  {
    if e.pc.CheckU? || e.pc.CheckL? { EditorLooks(c, x, m, e, b, OwnerOf(e, b)); }
    else if e.pc.Acquire? && m.lock == 0 && e.buf == [] { EditorLocks(c, x, m, e, b, OwnerOf(e, b)); }
  }

  lemma EditorRunsInside(c: Config, x: Match, m: Mem, e: Thread, b: Thread)
    requires Fair(x) && Course(x, m, e, b, OwnerOf(e, b)) && Locked(c, m, e, b) && Inside(e.pc)
    requires Locked(c, Step(c, m, e).0, Step(c, m, e).1, b)
    ensures var (m', e') := Step(c, m, e); Course(x, m', e', b, OwnerOf(e', b))
  {
    if Publishing(e.pc) { EditorPublishes(c, x, m, e, b); }
    else if Reading(e.pc) { OwnerWritesNoTotal(e.buf); EditorReads(c, x, m, e, b); }
    else if e.pc.PutFlags? { EditorStoresFlag(c, x, m, e, b); }
    else { EditorReleases(c, x, m, e, b); }
  }

  lemma CounterRuns(c: Config, x: Match, m: Mem, e: Thread, b: Thread)
    requires Fair(x) && Course(x, m, e, b, OwnerOf(e, b)) && Locked(c, m, e, b)
    requires Locked(c, Step(c, m, b).0, e, Step(c, m, b).1)
    ensures var (m', b') := Step(c, m, b); Course(x, m', e, b', OwnerOf(e, b'))
  {
    if b.pc.Count? { CountStays(c, x, m, e, b, OwnerOf(e, b)); }
    else if b.pc.Compare? { CounterCompares(c, x, m, e, b, OwnerOf(e, b)); }
    else if b.pc.Acquire? { if m.lock == 0 && b.buf == [] { CounterLocks(c, x, m, e, b, OwnerOf(e, b)); } }
    else if Reading(b.pc) { CounterReads(c, x, m, e, b); }
    else if b.pc.PutFlags? || b.pc.Release? { CounterStores(c, x, m, e, b); }
  }

  /** The owner stays owner until its release reaches memory. */
  lemma OwnerDrains(c: Config, m: Mem, t: Thread)
    requires ThreadOk(c, m, t, true) && Owns(t) && t.buf != []
    ensures Owns(DrainOne(m, t).1) <==> t.buf[0].loc != Lock
  {
    assert t.buf[0] in t.buf;
    if t.buf[0].loc == Lock && Leaving(t.buf[1..]) { LeavingHoldsLock(t.buf[1..]); }
  }

  lemma EditorDrains(c: Config, x: Match, m: Mem, e: Thread, b: Thread)
    requires Fair(x) && Course(x, m, e, b, OwnerOf(e, b)) && Locked(c, m, e, b) && e.buf != []
    ensures var (m', e') := DrainOne(m, e); Course(x, m', e', b, OwnerOf(e', b))
  {
    assert e.buf[0] in e.buf;
    OnlyOwnerWrites(c, m, e, 0 == OwnerOf(e, b));
    OwnerDrains(c, m, e);
    if Leaving(b.buf) { LeavingHoldsLock(b.buf); }
    EditorDrained(x, m, e, b, 0, if e.buf[0].loc == Lock then -1 else 0);
  }

  lemma CounterDrains(c: Config, x: Match, m: Mem, e: Thread, b: Thread)
    requires Fair(x) && Course(x, m, e, b, OwnerOf(e, b)) && Locked(c, m, e, b) && b.buf != []
    ensures var (m', b') := DrainOne(m, b); Course(x, m', e, b', OwnerOf(e, b'))
  {
    assert b.buf[0] in b.buf;
    OnlyOwnerWrites(c, m, b, 1 == OwnerOf(e, b));
    OwnerDrains(c, m, b);
    CounterDrained(x, m, e, b, 1, if b.buf[0].loc == Lock then -1 else 1);
  }

  lemma StepStays(c: Config, x: Match, s: State, a: Label)
    requires Fair(x) && OnCourse(c, x, s) && !a.Begin?
    ensures OnCourse(c, x, Next(c, s, a))
  {
    var m, e, b := s.mem, s.threads[0], s.threads[1];
    var s' := Next(c, s, a);
    var o' := NextKeeps(c, s, Owner(s), a);
    if a.i < 2 {
      OwnerIs(c, s', o');
      match a
      case Run(i) =>
        if i == 1 { CounterRuns(c, x, m, e, b); }
        else if Inside(e.pc) { EditorRunsInside(c, x, m, e, b); }
        else { EditorRunsFree(c, x, m, e, b); }
      case Drain(i) =>
        if i == 0 && e.buf != [] { EditorDrains(c, x, m, e, b); }
        if i == 1 && b.buf != [] { CounterDrains(c, x, m, e, b); }
    }
  }

  lemma {:induction false} RunStays(c: Config, x: Match, s: State, sched: seq<Label>)
    requires Fair(x) && OnCourse(c, x, s) && NoBegin(sched)
    ensures OnCourse(c, x, Exec(c, s, sched))
    decreases |sched|
  {
    if sched != [] {
      StepStays(c, x, s, sched[0]);
      RunStays(c, x, Next(c, s, sched[0]), sched[1..]);
    }
  }

  lemma ReadyOnCourse(c: Config, x: Match)
    requires Fair(x)
    ensures OnCourse(c, x, Ready(x))
  {
    var s := Ready(x);
    LoadFromMemory(x.m, [], Flags);
    LoadFromMemory(x.m, [], U);
    LoadFromMemory(x.m, [], Lv);
    assert Eventual(s, -1) == x.m.flags;
  }

  /** One edit against one bind or unbind that does not wrap the count, from a right
      memory with the lock free, in any run on any machine: the flag ends wrong only if
      the count is overlooked. */
  lemma OnlyOverlookedLoses(c: Config, x: Match, sched: seq<Label>)
    requires Fair(x) && NoBegin(sched)
    ensures
      var e := Exec(c, Ready(x), sched);
      Quiescent(e) && !Right(e.mem.flags, e.mem.u, e.mem.lv, e.mem.total) ==> Overlooked(x.m, x.edit, x.count)
  {
    ReadyOnCourse(c, x);
    RunStays(c, x, Ready(x), sched);
    var s := Exec(c, Ready(x), sched);
    if Quiescent(s) {
      assert s.threads[0] in s.threads && s.threads[1] in s.threads;
      LoadFromMemory(s.mem, [], U);
      LoadFromMemory(s.mem, [], Lv);
    }
  }

  ghost predicate CanLose(c: Config, x: Match) {
    exists sched: seq<Label> :: NoBegin(sched) && Wrong(Exec(c, Ready(x), sched))
  }

  predicate Wrong(s: State) { Quiescent(s) && !Right(s.mem.flags, s.mem.u, s.mem.lv, s.mem.total) }

  /** Unfenced on store buffers the two can lose the transition exactly when it is
      overlooked. */
  lemma LosesIffOverlooked(c: Config, x: Match)
    requires Fair(x) && !c.Ordered()
    ensures CanLose(c, x) <==> Overlooked(x.m, x.edit, x.count)
  {
    if Overlooked(x.m, x.edit, x.count) {
      var p := Pair(x.m, Thread(x.edit, CheckU, []), Thread(x.count, Count, []));
      var moves := DuelMisses(c, p);
      var sched := DuelInTheOpen(c, p, moves);
      assert Wrong(Exec(c, Ready(x), sched));
    }
    if CanLose(c, x) {
      var sched: seq<Label> :| NoBegin(sched) && Wrong(Exec(c, Ready(x), sched));
      OnlyOverlookedLoses(c, x, sched);
    }
  }
}
