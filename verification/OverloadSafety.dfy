/** With the fence, or without store buffers, no overload transition is lost. */
module OverloadSafety {
  import opened Prelude
  import opened StoreBuffer
  import opened OverloadFlag

  // ----- the invariant

  predicate Threshold(x: Loc) { x == U || x == L || x == Lv }

  /** A location of the destination, as opposed to the harness counters. */
  predicate Dest(x: Loc) {
    x == Flags || x == Total || x == Lock || Threshold(x)
  }

  predicate NoDest(buf: Buffer) {
    forall w :: w in buf ==> !Dest(w.loc)
  }

  predicate Publishing(pc: Pc) { pc.PutU? || pc.PutL? || pc.PutLv? || pc.Barrier? }

  predicate Reading(pc: Pc) { pc.GetU? || pc.GetLv? || pc.GetTotal? }

  /** Holds the lock and has not read the count yet. */
  predicate WillRead(pc: Pc) { Publishing(pc) || Reading(pc) }

  predicate Inside(pc: Pc) { WillRead(pc) || pc.PutFlags? || pc.Release? }

  predicate FlagWrites(buf: Buffer) {
    forall w :: w in buf ==> w.loc == Flags && (w.val == 0 || w.val == OVERLOAD)
  }

  /** Everything a lock owner can have buffered before its release. */
  predicate OwnerWrites(buf: Buffer) {
    forall w :: w in buf ==>
      Threshold(w.loc) || (w.loc == Flags && (w.val == 0 || w.val == OVERLOAD))
  }

  /** What a thread that has released the lock still has to write: thresholds
      and flag, then the lock, then nothing of the destination. */
  predicate Leaving(buf: Buffer) {
    buf != [] &&
    if buf[0].loc == Lock then buf[0].val == 0 && NoDest(buf[1..])
    else OwnerWrites(buf[..1]) && Leaving(buf[1..])
  }

  predicate Published(buf: Buffer) {
    forall w :: w in buf ==> Threshold(w.loc)
  }

  predicate NoThreshold(buf: Buffer) {
    forall w :: w in buf ==> !Threshold(w.loc)
  }

  /** True of a lock owner on any machine. */
  predicate OwnerShape(t: Thread) {
    && (Publishing(t.pc) ==> t.op.EditOp?)
    && (t.pc.PutFlags? ==> t.pc.v == 0 || t.pc.v == OVERLOAD)
    && if Inside(t.pc) then OwnerWrites(t.buf) else Leaving(t.buf)
  }

  /** True of a lock owner when publishing is ordered: from the fence on its
      thresholds are in memory, and what it has read of them is what is there. */
  predicate OwnerOrdered(m: Mem, t: Thread) {
    match t.pc
    case PutU => t.buf == []
    case PutL => t.op.EditOp? && Load(m, t.buf, U) == t.op.u && Published(t.buf)
    case PutLv => t.op.EditOp? && Load(m, t.buf, U) == t.op.u && Published(t.buf)
    case Barrier =>
      t.op.EditOp? && Load(m, t.buf, U) == t.op.u && Load(m, t.buf, Lv) == t.op.lv && Published(t.buf)
    case GetU => t.buf == []
    case GetLv(u) => t.buf == [] && u == m.u > 0
    case GetTotal(u, lv) => t.buf == [] && u == m.u > 0 && lv == m.lv
    case PutFlags(v) => t.buf == []
    case Release => FlagWrites(t.buf) && |t.buf| <= 1
    case _ => NoThreshold(t.buf)
  }

  predicate ThreadOk(c: Config, m: Mem, t: Thread, owner: bool) {
    && (t.pc.Idle? || WellFormed(t.op))
    && (!c.tso ==> t.buf == [])
    && (t.pc.Count? || t.pc.Compare? ==> !t.op.EditOp?)
    && (t.pc.Compare? ==> t.buf == [])
    && (t.pc.CheckU? || t.pc.CheckL? ==> t.op.EditOp?)
    && if owner then OwnerShape(t) && (c.Ordered() ==> OwnerOrdered(m, t))
       else !Inside(t.pc) && NoDest(t.buf)
  }

  /** A thread that will still take the lock and reread the count. */
  predicate Pending(m: Mem, t: Thread) {
    t.pc.Acquire? || (t.pc.Compare? && t.pc.tc == if t.op.BindOp? then m.u else m.lv)
  }

  /** The flag as it will be once the lock owner has finished. */
  function Eventual(s: State, o: int): nat
    requires -1 <= o < |s.threads|
  {
    if o == -1 then s.mem.flags
    else if s.threads[o].pc.PutFlags? then s.threads[o].pc.v
    else Load(s.mem, s.threads[o].buf, Flags)
  }

  predicate Promised(s: State, o: int)
    requires -1 <= o < |s.threads|
  {
    || (o >= 0 && WillRead(s.threads[o].pc))
    || Right(Eventual(s, o), s.mem.u, s.mem.lv, s.mem.total)
    || exists i :: 0 <= i < |s.threads| && Pending(s.mem, s.threads[i])
  }

  /** o is the thread that owns the lock, -1 when nobody does. */
  predicate Inv(c: Config, s: State, o: int) {
    && -1 <= o < |s.threads|
    && s.mem.total < WORD
    && s.mem.lock == (if o == -1 then 0 else 1)
    && (s.mem.flags == 0 || s.mem.flags == OVERLOAD)
    && (forall i :: 0 <= i < |s.threads| ==> ThreadOk(c, s.mem, s.threads[i], i == o))
    && (c.Ordered() ==> (o >= 0 && Publishing(s.threads[o].pc)) || s.mem.lv <= s.mem.u)
    && (c.Ordered() ==> s.wrapped || Promised(s, o))
  }

  // ----- every step keeps the invariant

  /** Steps that leave the thresholds alone keep every other pending thread. */
  lemma KeepPending(s: State, s': State, i: nat)
    requires |s'.threads| == |s.threads| && i < |s.threads|
    requires forall j :: 0 <= j < |s.threads| && j != i ==> s'.threads[j] == s.threads[j]
    requires s'.mem.u == s.mem.u && s'.mem.lv == s.mem.lv
    requires Pending(s.mem, s.threads[i]) ==> Pending(s'.mem, s'.threads[i])
    requires exists j :: 0 <= j < |s.threads| && Pending(s.mem, s.threads[j])
    ensures exists j :: 0 <= j < |s'.threads| && Pending(s'.mem, s'.threads[j])
  {
    var j :| 0 <= j < |s.threads| && Pending(s.mem, s.threads[j]);
    assert Pending(s'.mem, s'.threads[j]);
  }

  lemma BeginKeeps(c: Config, s: State, o: int, i: nat, op: Op)
    requires Inv(c, s, o)
    ensures Inv(c, Next(c, s, Begin(i, op)), o)
  {
    var s' := Next(c, s, Begin(i, op));
    if s' != s && !s.wrapped && exists j :: 0 <= j < |s.threads| && Pending(s.mem, s.threads[j]) {
      KeepPending(s, s', i);
    }
  }

  /** The owner is indifferent to what other threads can change. */
  lemma OwnerFrame(s: State, s': State, o: int)
    requires 0 <= o < |s.threads| == |s'.threads| && s.threads[o] == s'.threads[o]
    requires s.mem.u == s'.mem.u && s.mem.lv == s'.mem.lv && s.mem.flags == s'.mem.flags
    ensures Eventual(s, o) == Eventual(s', o)
    ensures OwnerOrdered(s.mem, s.threads[o]) ==> OwnerOrdered(s'.mem, s'.threads[o])
  {
    LoadFrame(s.mem, s'.mem, s.threads[o].buf, Flags);
    LoadFrame(s.mem, s'.mem, s.threads[o].buf, U);
    LoadFrame(s.mem, s'.mem, s.threads[o].buf, Lv);
  }

  /** The locked read-modify-write: whoever makes the flag wrong is pending. */
  lemma CountKeeps(c: Config, s: State, o: int, i: nat)
    requires Inv(c, s, o) && i < |s.threads| && s.threads[i].pc.Count?
    ensures Inv(c, Next(c, s, Run(i)), o)
  {
    var s' := Next(c, s, Run(i));
    var t := s.threads[i];
    if t.buf != [] {
      assert s'.threads == s.threads;
    } else {
      if o >= 0 { OwnerFrame(s, s', o); }
      if c.Ordered() && !s'.wrapped {
        if exists j :: 0 <= j < |s.threads| && Pending(s.mem, s.threads[j]) {
          KeepPending(s, s', i);
        } else if !(o >= 0 && WillRead(s.threads[o].pc))
            && !Right(Eventual(s', o), s'.mem.u, s'.mem.lv, s'.mem.total) {
          assert Pending(s'.mem, s'.threads[i]);
        }
      }
    }
  }

  predicate Looking(pc: Pc) { pc.Compare? || pc.CheckU? || pc.CheckL? || pc.Idle? }

  lemma LookStep(c: Config, m: Mem, t: Thread, owner: bool)
    requires ThreadOk(c, m, t, owner) && Looking(t.pc)
    ensures
      var (m', t') := Step(c, m, t);
      && m' == m && ThreadOk(c, m, t', owner) && !Inside(t'.pc) && t'.buf == t.buf
      && (Pending(m, t) ==> Pending(m, t'))
  {
  }

  /** Unlocked reads, by a thread that may still have a release in its buffer. */
  lemma LookKeeps(c: Config, s: State, o: int, i: nat)
    requires Inv(c, s, o) && i < |s.threads| && Looking(s.threads[i].pc)
    ensures Inv(c, Next(c, s, Run(i)), o)
  {
    var s' := Next(c, s, Run(i));
    LookStep(c, s.mem, s.threads[i], i == o);
    if c.Ordered() && !s.wrapped && exists j :: 0 <= j < |s.threads| && Pending(s.mem, s.threads[j]) {
      KeepPending(s, s', i);
    }
  }

  /** Taking the lock makes the thread the one that will read the count. */
  lemma AcquireKeeps(c: Config, s: State, o: int, i: nat) returns (o': int)
    requires Inv(c, s, o) && i < |s.threads| && s.threads[i].pc.Acquire?
    ensures Inv(c, Next(c, s, Run(i)), o')
  {
    var s' := Next(c, s, Run(i));
    if s.threads[i].buf != [] || s.mem.lock != 0 {
      assert s'.threads == s.threads;
      return o;
    }
    return i;
  }

  /** A threshold store, into the buffer or into memory. */
  lemma StoreThreshold(c: Config, m: Mem, t: Thread, x: Loc, v: nat, pc: Pc)
    requires Threshold(x) && OwnerWrites(t.buf) && (!c.tso ==> t.buf == [])
    ensures
      var (m', t') := Store(c, m, t, x, v, pc);
      && OwnerWrites(t'.buf) && (Published(t.buf) ==> Published(t'.buf))
      && t'.op == t.op && t'.pc == pc && (!c.tso ==> t'.buf == [])
      && Load(m', t'.buf, x) == v
      && (x != U ==> Load(m', t'.buf, U) == Load(m, t.buf, U))
      && (x != Lv ==> Load(m', t'.buf, Lv) == Load(m, t.buf, Lv))
  {
    LoadAfterStore(m, t.buf, Write(x, v), x);
    LoadAfterStore(m, t.buf, Write(x, v), U);
    LoadAfterStore(m, t.buf, Write(x, v), Lv);
  }

  lemma PublishStep(c: Config, m: Mem, t: Thread)
    requires Publishing(t.pc) && ThreadOk(c, m, t, true)
    ensures
      var (m', t') := Step(c, m, t);
      && ThreadOk(c, m', t', true) && WillRead(t'.pc)
      && m' == m.(u := m'.u, l := m'.l, lv := m'.lv)
      && (c.Ordered() ==> Publishing(t'.pc) || m'.lv <= m'.u)
  {
    match t.pc
    case PutU => StoreThreshold(c, m, t, U, t.op.u, PutL);
    case PutL => StoreThreshold(c, m, t, L, t.op.l, PutLv);
    case PutLv => StoreThreshold(c, m, t, Lv, t.op.lv, Barrier);
    case Barrier =>
  }

  /** The owner publishes thresholds, waits for the fence and reads them. */
  lemma PublishKeeps(c: Config, s: State, o: int)
    requires Inv(c, s, o) && 0 <= o
    requires Publishing(s.threads[o].pc)
    ensures Inv(c, Next(c, s, Run(o)), o)
  {
    PublishStep(c, s.mem, s.threads[o]);
  }

  /** The read of the count settles the flag, from whatever it was. */
  lemma ReadKeeps(c: Config, s: State, o: int)
    requires Inv(c, s, o) && 0 <= o
    requires Reading(s.threads[o].pc)
    ensures Inv(c, Next(c, s, Run(o)), o)
  {
  }

  lemma PutFlagsKeeps(c: Config, s: State, o: int)
    requires Inv(c, s, o) && 0 <= o && s.threads[o].pc.PutFlags?
    ensures Inv(c, Next(c, s, Run(o)), o)
  {
    var s' := Next(c, s, Run(o));
    LoadAfterStore(s.mem, [], Write(Flags, s.threads[o].pc.v), Flags);
    assert Eventual(s', o) == Eventual(s, o);
    if c.Ordered() && !s.wrapped && exists j :: 0 <= j < |s.threads| && Pending(s.mem, s.threads[j]) {
      KeepPending(s, s', o);
    }
  }

  lemma {:induction false} ReleaseShape(buf: Buffer)
    requires OwnerWrites(buf)
    ensures Leaving(buf + [Write(Lock, 0)])
  {
    var b := buf + [Write(Lock, 0)];
    if buf == [] {
      assert b[1..] == [];
    } else {
      assert buf[0] in buf;
      assert b[..1] == buf[..1] && b[1..] == buf[1..] + [Write(Lock, 0)];
      ReleaseShape(buf[1..]);
    }
  }

  /** A buffered release leaves the thread owner until it reaches memory. */
  lemma ReleaseBuffered(c: Config, s: State, o: int)
    requires c.tso && Inv(c, s, o) && 0 <= o && s.threads[o].pc.Release?
    ensures Inv(c, Next(c, s, Run(o)), o)
  {
    var s' := Next(c, s, Run(o));
    LoadAfterStore(s.mem, s.threads[o].buf, Write(Lock, 0), Flags);
    ReleaseShape(s.threads[o].buf);
    if c.Ordered() && !s.wrapped && exists j :: 0 <= j < |s.threads| && Pending(s.mem, s.threads[j]) {
      KeepPending(s, s', o);
    }
  }

  lemma ReleaseDirect(c: Config, s: State, o: int)
    requires !c.tso && Inv(c, s, o) && 0 <= o && s.threads[o].pc.Release?
    ensures Inv(c, Next(c, s, Run(o)), -1)
  {
    var s' := Next(c, s, Run(o));
    if c.Ordered() && !s.wrapped && exists j :: 0 <= j < |s.threads| && Pending(s.mem, s.threads[j]) {
      KeepPending(s, s', o);
    }
  }

  lemma RunKeeps(c: Config, s: State, o: int, i: nat) returns (o': int)
    requires Inv(c, s, o) && i < |s.threads|
    ensures Inv(c, Next(c, s, Run(i)), o')
  {
    o' := o;
    var pc := s.threads[i].pc;
    if pc.Count? {
      CountKeeps(c, s, o, i);
    } else if pc.Acquire? {
      o' := AcquireKeeps(c, s, o, i);
    } else if !Inside(pc) {
      LookKeeps(c, s, o, i);
    } else if Publishing(pc) {
      PublishKeeps(c, s, i);
    } else if Reading(pc) {
      ReadKeeps(c, s, i);
    } else if pc.PutFlags? {
      PutFlagsKeeps(c, s, i);
    } else {
      if c.tso { ReleaseBuffered(c, s, i); } else { ReleaseDirect(c, s, i); o' := -1; }
    }
  }

  /** A buffered store of the owner reaches memory. */
  lemma OwnerDrainKeeps(c: Config, s: State, o: int) returns (o': int)
    requires Inv(c, s, o) && 0 <= o && s.threads[o].buf != []
    ensures Inv(c, Next(c, s, Drain(o)), o')
    ensures o' == if s.threads[o].buf[0].loc == Lock then -1 else o
  {
    var s' := Next(c, s, Drain(o));
    var t := s.threads[o];
    LoadAfterDrain(s.mem, t.buf, Flags);
    LoadAfterDrain(s.mem, t.buf, U);
    LoadAfterDrain(s.mem, t.buf, Lv);
    assert t.buf[0] in t.buf;
    if t.buf[0].loc == Lock {
      LoadFromMemory(s'.mem, t.buf[1..], Flags);
      o' := -1;
    } else {
      o' := o;
    }
    if !Publishing(t.pc) {
      assert Eventual(s', o') == Eventual(s, o);
      if c.Ordered() && !s.wrapped && exists j :: 0 <= j < |s.threads| && Pending(s.mem, s.threads[j]) {
        KeepPending(s, s', o);
      }
    }
  }

  lemma OtherDrainKeeps(c: Config, s: State, o: int, i: nat)
    requires Inv(c, s, o) && i < |s.threads| && i != o
    ensures Inv(c, Next(c, s, Drain(i)), o)
  {
    var s' := Next(c, s, Drain(i));
    var t := s.threads[i];
    if t.buf == [] {
      assert s'.threads == s.threads;
    } else {
      assert t.buf[0] in t.buf;
      if o >= 0 { OwnerFrame(s, s', o); }
      if c.Ordered() && !s.wrapped && exists j :: 0 <= j < |s.threads| && Pending(s.mem, s.threads[j]) {
        KeepPending(s, s', i);
      }
    }
  }

  lemma StartsGood(c: Config, s: State)
    requires Initial(s)
    ensures Inv(c, s, -1)
  {
    assert Eventual(s, -1) == s.mem.flags;
    forall i | 0 <= i < |s.threads| ensures ThreadOk(c, s.mem, s.threads[i], false) {
      assert s.threads[i] in s.threads;
    }
  }

  lemma NextKeeps(c: Config, s: State, o: int, a: Label) returns (o': int)
    requires Inv(c, s, o)
    ensures Inv(c, Next(c, s, a), o')
  {
    o' := o;
    if a.i < |s.threads| {
      match a
      case Begin(i, op) => BeginKeeps(c, s, o, i, op);
      case Run(i) => o' := RunKeeps(c, s, o, i);
      case Drain(i) =>
        if s.threads[i].buf == [] {
          assert Next(c, s, a).threads == s.threads;
        } else if i == o {
          o' := OwnerDrainKeeps(c, s, o);
        } else {
          OtherDrainKeeps(c, s, o, i);
        }
    }
  }

  lemma {:induction false} ExecKeeps(c: Config, s: State, o: int, sched: seq<Label>) returns (o': int)
    requires Inv(c, s, o)
    ensures Inv(c, Exec(c, s, sched), o')
    decreases |sched|
  {
    if sched == [] {
      o' := o;
    } else {
      var p := NextKeeps(c, s, o, sched[0]);
      o' := ExecKeeps(c, Next(c, s, sched[0]), p, sched[1..]);
    }
  }

  // ----- the theorems

  /** Any number of threads, any operations, any thresholds with lv <= u, any
      schedule: once nobody works on the destination its flag is right. */
  lemma QuiescentFlagIsRight(c: Config, s: State, sched: seq<Label>)
    requires c.Ordered() && Initial(s)
    ensures
      var e := Exec(c, s, sched);
      Quiescent(e) && !e.wrapped ==> Right(e.mem.flags, e.mem.u, e.mem.lv, e.mem.total)
  {
    StartsGood(c, s);
    var o := ExecKeeps(c, s, -1, sched);
  }

  /** Thread i will reread the count under the lock, or its store of the right flag is
      on its way. */
  predicate Repairs(s: State, i: nat)
    requires i < |s.threads|
  {
    var m, t := s.mem, s.threads[i];
    || Pending(m, t) || WillRead(t.pc)
    || (t.pc.PutFlags? && Right(t.pc.v, m.u, m.lv, m.total))
    || Right(Load(m, t.buf, Flags), m.u, m.lv, m.total)
  }

  predicate RightOrRepaired(s: State) {
    Right(s.mem.flags, s.mem.u, s.mem.lv, s.mem.total) || exists i :: 0 <= i < |s.threads| && Repairs(s, i)
  }

  /** In between, a wrong flag always has somebody to repair it. */
  lemma WrongFlagHasRepairer(c: Config, s: State, sched: seq<Label>)
    requires c.Ordered() && Initial(s)
    ensures var e := Exec(c, s, sched); !e.wrapped ==> RightOrRepaired(e)
  {
    StartsGood(c, s);
    var o := ExecKeeps(c, s, -1, sched);
    var e := Exec(c, s, sched);
    if !e.wrapped && !Right(e.mem.flags, e.mem.u, e.mem.lv, e.mem.total) {
      if o >= 0 && (WillRead(e.threads[o].pc) || Right(Eventual(e, o), e.mem.u, e.mem.lv, e.mem.total)) {
        assert Repairs(e, o);
      } else {
        var i :| 0 <= i < |e.threads| && Pending(e.mem, e.threads[i]);
        assert Repairs(e, i);
      }
    }
  }

  /** Mutual exclusion: the lock word is set exactly while one thread is between
      its acquisition and the arrival of its release in memory. */
  lemma LockExcludes(c: Config, s: State, sched: seq<Label>, i: nat, j: nat)
    requires Initial(s)
    requires i < |s.threads| && j < |s.threads|
    ensures
      var e := Exec(c, s, sched);
      |e.threads| == |s.threads| &&
      (Inside(e.threads[i].pc) ==> e.mem.lock == 1) &&
      (Inside(e.threads[i].pc) && Inside(e.threads[j].pc) ==> i == j)
  {
    StartsGood(c, s);
    var o := ExecKeeps(c, s, -1, sched);
    ThreadsStay(c, s, sched);
  }

  lemma {:induction false} ThreadsStay(c: Config, s: State, sched: seq<Label>)
    ensures |Exec(c, s, sched).threads| == |s.threads|
    decreases |sched|
  {
    if sched != [] { ThreadsStay(c, Next(c, s, sched[0]), sched[1..]); }
  }
}
