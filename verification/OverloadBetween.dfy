/** Between the two thresholds either flag is right, and which one an update leaves is
    its mode's: a bind sets the flag, an unbind clears it, an edit keeps it. */
module OverloadBetween {
  import opened StoreBuffer
  import opened OverloadFlag
  import opened OverloadSafety

  /** Thread i holds the lock, has read the count, and v is the flag it will leave. */
  predicate Decided(c: Config, s: State, i: nat, v: nat) {
    i < |s.threads| && Inv(c, s, i) && !WillRead(s.threads[i].pc) && Eventual(s, i) == v
  }

  /** The lock is free again and v is the flag in memory. */
  predicate Released(s: State, v: nat) { s.mem.lock == 0 && s.mem.flags == v }

  /** A step of a thread that neither owns the lock nor can take it. */
  lemma OtherRuns(c: Config, s: State, i: nat, v: nat, j: nat)
    requires Decided(c, s, i, v) && j < |s.threads| && j != i
    ensures Decided(c, Next(c, s, Run(j)), i, v)
  {
    var s' := Next(c, s, Run(j));
    var t := s.threads[j];
    assert ThreadOk(c, s.mem, t, false);
    if t.pc.Count? {
      CountKeeps(c, s, i, j);
    } else if t.pc.Acquire? {
      assert s'.threads == s.threads;
    } else {
      LookStep(c, s.mem, t, false);
      LookKeeps(c, s, i, j);
    }
    OwnerFrame(s, s', i);
  }

  lemma OtherDrains(c: Config, s: State, i: nat, v: nat, j: nat)
    requires Decided(c, s, i, v) && j < |s.threads| && j != i
    ensures Decided(c, Next(c, s, Drain(j)), i, v)
  {
    var s' := Next(c, s, Drain(j));
    var t := s.threads[j];
    assert ThreadOk(c, s.mem, t, false);
    OtherDrainKeeps(c, s, i, j);
    if t.buf != [] { assert t.buf[0] in t.buf; }
    OwnerFrame(s, s', i);
  }

  lemma OwnerRuns(c: Config, s: State, i: nat, v: nat)
    requires Decided(c, s, i, v)
    ensures var s' := Next(c, s, Run(i)); Decided(c, s', i, v) || Released(s', v)
  {
    var s' := Next(c, s, Run(i));
    var t := s.threads[i];
    assert ThreadOk(c, s.mem, t, true);
    if t.pc.PutFlags? {
      PutFlagsKeeps(c, s, i);
      LoadAfterStore(s.mem, t.buf, Write(Flags, t.pc.v), Flags);
    } else if t.pc.Release? {
      LoadAfterStore(s.mem, t.buf, Write(Lock, 0), Flags);
      if c.tso { ReleaseBuffered(c, s, i); } else { LoadFromMemory(s.mem, t.buf, Flags); }
    } else if t.pc.Count? || t.pc.Acquire? {
      assert t.buf != [];
      assert s'.threads == s.threads;
    } else {
      LookStep(c, s.mem, t, true);
      LookKeeps(c, s, i, i);
    }
  }

  lemma OwnerDrains(c: Config, s: State, i: nat, v: nat)
    requires Decided(c, s, i, v)
    ensures var s' := Next(c, s, Drain(i)); Decided(c, s', i, v) || Released(s', v)
  {
    var s' := Next(c, s, Drain(i));
    var t := s.threads[i];
    if t.buf == [] {
      assert s'.threads == s.threads;
    } else {
      var o := OwnerDrainKeeps(c, s, i);
      LoadAfterDrain(s.mem, t.buf, Flags);
      assert ThreadOk(c, s.mem, t, true);
      if o == -1 { LoadFromMemory(s'.mem, t.buf[1..], Flags); }
    }
  }

  lemma DecidedStays(c: Config, s: State, i: nat, v: nat, a: Label)
    requires Decided(c, s, i, v)
    ensures var s' := Next(c, s, a); Decided(c, s', i, v) || Released(s', v)
  {
    if a.i < |s.threads| {
      match a
      case Begin(j, op) =>
        BeginKeeps(c, s, i, j, op);
      case Run(j) => if j == i { OwnerRuns(c, s, i, v); } else { OtherRuns(c, s, i, v, j); }
      case Drain(j) => if j == i { OwnerDrains(c, s, i, v); } else { OtherDrains(c, s, i, v, j); }
    }
  }

  /** The lock is held up to step n of the run and then free with flag v. */
  predicate ReleasesAt(c: Config, s: State, run: seq<Label>, v: nat, n: nat)
    requires n <= |run|
  {
    Released(Exec(c, s, run[..n]), v) && forall m :: 0 <= m < n ==> Exec(c, s, run[..m]).mem.lock == 1
  }

  /** Whatever runs, thread i still holds the lock with v to come, or its release left v. */
  ghost predicate Leaves(c: Config, s: State, run: seq<Label>, i: nat, v: nat) {
    || Decided(c, Exec(c, s, run), i, v)
    || exists n :: 0 <= n <= |run| && ReleasesAt(c, s, run, v, n)
  }

  lemma {:induction false} DecidedLeaves(c: Config, s: State, run: seq<Label>, i: nat, v: nat)
    requires Decided(c, s, i, v)
    ensures Leaves(c, s, run, i, v)
    decreases |run|
  {
    if run != [] {
      var t := Next(c, s, run[0]);
      DecidedStays(c, s, i, v, run[0]);
      if Decided(c, t, i, v) {
        DecidedLeaves(c, t, run[1..], i, v);
        if !Decided(c, Exec(c, s, run), i, v) {
          var n :| 0 <= n <= |run| - 1 && ReleasesAt(c, t, run[1..], v, n);
          ReleasesLater(c, s, run, v, n);
        }
      } else {
        assert run[..1][1..] == [] && run[..1][0] == run[0];
        assert Exec(c, s, run[..1]) == Exec(c, t, []);
        assert ReleasesAt(c, s, run, v, 1);
      }
    }
  }

  lemma ReleasesLater(c: Config, s: State, run: seq<Label>, v: nat, n: nat)
    requires n < |run| && s.mem.lock == 1 && ReleasesAt(c, Next(c, s, run[0]), run[1..], v, n)
    ensures ReleasesAt(c, s, run, v, n + 1)
  {
    forall m | 0 < m <= n + 1
      ensures Exec(c, s, run[..m]) == Exec(c, Next(c, s, run[0]), run[1..][..m - 1])
    {
      assert run[..m][1..] == run[1..][..m - 1];
    }
    assert run[..0] == [];
  }

  /** The flag an update of a kind leaves when the count it read is between the
      thresholds it read. */
  function Between(op: Op, was: nat): nat {
    match op
    case BindOp => 2
    case UnbindOp => 0
    case EditOp(_, _, _) => was
  }

  lemma ReadDecides(c: Config, s: State, i: nat)
    requires i < |s.threads| && Inv(c, s, i) && s.threads[i].pc.GetTotal?
    requires s.threads[i].pc.lv <= Load(s.mem, s.threads[i].buf, Total) < s.threads[i].pc.u
    ensures Decided(c, Next(c, s, Run(i)), i, Between(s.threads[i].op, Eventual(s, i)))
  {
    ReadKeeps(c, s, i);
  }

  /** In every run of any number of threads on any machine: a thread that holds the lock
      and reads a count with lv <= total < u leaves, when its release reaches memory, the
      flag set after a bind, clear after an unbind, and as it found it after an edit. */
  lemma BetweenThresholds(c: Config, s: State, sched: seq<Label>, i: nat, rest: seq<Label>)
    requires Initial(s) && i < |Exec(c, s, sched).threads|
    requires
      var e := Exec(c, s, sched);
      var t := e.threads[i];
      t.pc.GetTotal? && t.pc.lv <= Load(e.mem, t.buf, Total) < t.pc.u
    ensures
      var e := Exec(c, s, sched);
      var t := e.threads[i];
      Leaves(c, Next(c, e, Run(i)), rest, i, Between(t.op, Load(e.mem, t.buf, Flags)))
  {
    StartsGood(c, s);
    var o := ExecKeeps(c, s, -1, sched);
    var e := Exec(c, s, sched);
    assert ThreadOk(c, e.mem, e.threads[i], i == o);
    ReadDecides(c, e, i);
    DecidedLeaves(c, Next(c, e, Run(i)), rest, i, Between(e.threads[i].op, Eventual(e, i)));
  }
}
