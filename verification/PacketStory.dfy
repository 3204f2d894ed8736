/** What main makes of the answers it gets: when a round is a miss, when main goes on and
    when it gives up, how long it waits, and when a probe is lost.  A story keeps, of a
    run so far, the answers main has got. */
module PacketStory {
  import opened Prelude
  import opened PacketRace
  import opened PacketBarrier
  import opened PacketRounds
  import opened PacketStop

  /** One reading of the state file, and the round it was made in. */
  datatype Look = Look(round: nat, a: Answer)

  datatype Kind = Nothing | Arming | First | Second

  /** A step of main: where it was, what it could load, what it was answered. */
  datatype Entry = Entry(main: Main, mem: Shared, a: Answer)

  /** The latest reading of each kind, and which came last; the values of last_seen that
      main has loaded since it last sent something; the answer to the probe; the last
      step of main. */
  datatype Story = Story(latest: Kind, armed: Option<Look>, first: Option<Look>, second: Option<Look>,
                         waits: seq<nat>, probe: Option<Answer>, last: Option<Entry>)

  function Tell(s: System, e: Label, st: Story): Story {
    if s.main.pc.Died? || !(e.Run? && e.who.TheMain?) then st
    else
      var look := Some(Look(s.main.n, e.a));
      var on := st.(last := Some(Entry(s.main, s.mem, e.a)));
      match s.main.pc
      case Initial => on.(latest := Arming, armed := look)
      case Inspect => on.(latest := First, first := look)
      case Confirm => on.(latest := Second, second := look)
      case SendSmoke => on.(waits := [])
      case Errors => on.(waits := [])
      case SendProbe => on.(waits := [], probe := Some(e.a))
      case AwaitSmoke(_) => on.(waits := st.waits + [s.mem.lastSeen])
      case AwaitRacing(_) => on.(waits := st.waits + [s.mem.lastSeen])
      case AwaitProbe(_) => on.(waits := st.waits + [s.mem.lastSeen])
      case _ => on
  }

  function StoryOf(s: System, run: seq<Label>): Story
    decreases |run|
  {
    if run == [] then Story(Nothing, None, None, None, [], None, None)
    else
      var before := run[..|run| - 1];
      Tell(Exec(s, before), run[|run| - 1], StoryOf(s, before))
  }

  // ----- what the answers mean

  /** The destination is as a round needs it. */
  predicate Clean(a: Answer) { a.readable && a.total == 0 && a.over == 0 }

  /** Overloaded without a connection. */
  predicate Suspicious(a: Answer) { a.readable && a.over != 0 && a.total == 0 }

  /** And with the edited thresholds. */
  predicate Convicting(a: Answer) { Suspicious(a) && a.u == 1 && a.l == 1 }

  predicate Below(waits: seq<nat>, x: nat) { forall i :: 0 <= i < |waits| ==> waits[i] < x }

  /** A last step of main after which the program exits: a call or a reading failed, the
      destination was not clean, a worker's call had failed, or 1001 looks saw nothing. */
  predicate Fatal(st: Story) {
    st.last.Some? &&
    var e := st.last.value;
    var pc := e.main.pc;
    || ((pc.SendSmoke? || pc.CreateEditor? || pc.CreateSender? || pc.Rearming?) && e.a.err != 0)
    || (pc.Initial? && !Clean(e.a))
    || (pc.Errors? && (e.mem.editError != 0 || e.mem.sendError != 0))
    || ((pc.Inspect? || pc.Confirm?) && !e.a.readable)
    || (pc.AwaitSmoke? && |st.waits| == 1001 && Below(st.waits, 1))
    || (pc.AwaitRacing? && |st.waits| == 1001 && Below(st.waits, 2 * e.main.n))
  }

  // ----- what main has made of them

  /** At the head of a round, or past the last one. */
  predicate Heading(pc: MainPc) {
    pc.Guard? || pc.Rearm? || pc.Rearming? || pc.Initial? || pc.PutStop? || Joining(pc) || pc.Died?
  }

  /** In a round, up to the first reading after it. */
  predicate Underway(pc: MainPc) {
    pc.PutEpoch? || pc.WaitEdited? || pc.WaitSent? || pc.Errors? || pc.AwaitRacing? || pc.Inspect? || pc.Died?
  }

  /** Main has gone on from a round without a miss. */
  predicate WentOn(s: System, round: nat) { s.main.n == Bump(round) && Heading(s.main.pc) && s.main.misses == 0 }

  /** Where the last reading of the state file has taken main. */
  predicate Looked(s: System, st: Story) {
    var n, pc, misses := s.main.n, s.main.pc, s.main.misses;
    match st.latest
    case Nothing => misses == 0 && n == 1 && (Booting(pc) || Heading(pc))
    case Arming =>
      && st.armed.Some? && st.armed.value.round == n && misses == 0
      && if Clean(st.armed.value.a) then Underway(pc) else pc.Died?
    case First =>
      && st.first.Some?
      && var l := st.first.value;
         if !l.a.readable then pc.Died? && misses == 0
         else if Suspicious(l.a) then pc.Confirm? && n == l.round && misses == 0
         else WentOn(s, l.round)
    case Second =>
      && st.first.Some? && st.second.Some? && st.first.value.round == st.second.value.round
      && Suspicious(st.first.value.a)
      && var l := st.second.value;
         if !l.a.readable then pc.Died? && misses == 0
         else if Convicting(l.a) then
           n == l.round && misses == 1 && (pc.SendProbe? || pc.AwaitProbe? || pc.PutStop? || Joining(pc))
         else WentOn(s, l.round)
  }

  /** An earlier second reading did not convict, or main would have left the loop. */
  predicate OldLooks(st: Story) {
    st.latest != Second && st.second.Some? ==> !Convicting(st.second.value.a)
  }

  /** x was seen at the last look and at none before, within so many. */
  predicate SeenLast(waits: seq<nat>, x: nat, most: nat) {
    0 < |waits| <= most && waits[|waits| - 1] >= x && Below(waits[..|waits| - 1], x)
  }

  predicate Waited(s: System, st: Story) {
    var n, pc := s.main.n, s.main.pc;
    && (pc.AwaitSmoke? ==> |st.waits| == pc.polls <= 1000 && Below(st.waits, 1))
    && (pc.AwaitRacing? ==> |st.waits| == pc.polls <= 1000 && Below(st.waits, 2 * n))
    && (pc.AwaitProbe? ==> |st.waits| == pc.polls <= 100 && Below(st.waits, 2 * n + 1))
    && (pc.CreateEditor? ==> SeenLast(st.waits, 1, 1001))
    && (pc.Inspect? ==> SeenLast(st.waits, 2 * n, 1001))
  }

  /** The end of the probe: lost after 101 looks that all saw less, otherwise seen. */
  predicate ProbeDecided(s: System, st: Story) {
    var n, pc := s.main.n, s.main.pc;
    if s.main.misses == 1 && (pc.PutStop? || Joining(pc)) then
      if s.main.probeLost then |st.waits| == 101 && Below(st.waits, 2 * n + 1)
      else SeenLast(st.waits, 2 * n + 1, 101)
    else !s.main.probeLost
  }

  predicate ProbeSent(s: System, st: Story) {
    var pc := s.main.pc;
    s.main.misses == 1 && !pc.SendProbe? ==>
      st.probe.Some? && (st.probe.value.left ==> 2 * s.main.n + 1 in s.wire)
  }

  predicate Joined(s: System) {
    var pc := s.main.pc;
    && (pc.JoinSender? || pc.JoinServer? || pc.Done? ==> s.ed.pc.Returned?)
    && (pc.JoinServer? || pc.Done? ==> s.tx.pc.Returned?)
    && (pc.Done? ==> s.rx.pc.Gone?)
  }

  // ----- every step keeps it

  /** Main reads the state file. */
  predicate Reading(pc: MainPc) { pc.Initial? || pc.Inspect? || pc.Confirm? }

  lemma LookedReading(s: System, a: Answer, st: Story)
    requires Looked(s, st) && OldLooks(st) && s.main.n < WORD
    requires Reading(s.main.pc)
    ensures
      var e := Run(TheMain, a);
      Looked(Next(s, e), Tell(s, e, st)) && OldLooks(Tell(s, e, st))
  {
  }

  lemma LookedBooting(s: System, a: Answer, st: Story)
    requires Looked(s, st) && OldLooks(st) && s.main.n < WORD && Booting(s.main.pc)
    ensures
      var e := Run(TheMain, a);
      Looked(Next(s, e), Tell(s, e, st)) && OldLooks(Tell(s, e, st))
  {
  }

  lemma LookedHeading(s: System, a: Answer, st: Story)
    requires Looked(s, st) && OldLooks(st) && s.main.n < WORD
    requires !Reading(s.main.pc) && Heading(s.main.pc) && !s.main.pc.Died?
    ensures
      var e := Run(TheMain, a);
      Looked(Next(s, e), Tell(s, e, st)) && OldLooks(Tell(s, e, st))
  {
  }

  lemma LookedUnderway(s: System, a: Answer, st: Story)
    requires Looked(s, st) && OldLooks(st) && s.main.n < WORD
    requires !Reading(s.main.pc) && (Underway(s.main.pc) || Judging(s.main.pc)) && !s.main.pc.Died?
    ensures
      var e := Run(TheMain, a);
      Looked(Next(s, e), Tell(s, e, st)) && OldLooks(Tell(s, e, st))
  {
  }

  lemma LookedKeeps(s: System, e: Label, st: Story)
    requires Looked(s, st) && OldLooks(st) && s.main.n < WORD
    ensures Looked(Next(s, e), Tell(s, e, st)) && OldLooks(Tell(s, e, st))
  {
    if !s.main.pc.Died? && e.Run? && e.who.TheMain? {
      if Reading(s.main.pc) { LookedReading(s, e.a, st); }
      else if Booting(s.main.pc) { LookedBooting(s, e.a, st); }
      else if Heading(s.main.pc) { LookedHeading(s, e.a, st); }
      else { LookedUnderway(s, e.a, st); }
    }
  }

  lemma OneMore(waits: seq<nat>, v: nat, x: nat)
    ensures Below(waits + [v], x) <==> Below(waits, x) && v < x
    ensures (waits + [v])[..|waits|] == waits && (waits + [v])[|waits|] == v
  {
    assert (waits + [v])[|waits|] == v;
    forall i | 0 <= i < |waits| ensures (waits + [v])[i] == waits[i] {}
    if Below(waits + [v], x) {
      forall i | 0 <= i < |waits| ensures waits[i] < x { assert (waits + [v])[i] < x; }
    }
  }

  predicate Awaiting(pc: MainPc) { pc.AwaitSmoke? || pc.AwaitRacing? || pc.AwaitProbe? }

  /** The number that main awaits. */
  function Awaited(m: Main): nat
    requires Awaiting(m.pc)
  {
    if m.pc.AwaitSmoke? then 1 else if m.pc.AwaitRacing? then 2 * m.n else 2 * m.n + 1
  }

  lemma DiedAwaiting(s: System, a: Answer, st: Story)
    requires Waited(s, st) && Awaiting(s.main.pc)
    ensures var e := Run(TheMain, a); Next(s, e).main.pc.Died? <==> Fatal(Tell(s, e, st))
  {
    OneMore(st.waits, s.mem.lastSeen, Awaited(s.main));
  }

  lemma DiedElsewhere(s: System, a: Answer, st: Story)
    requires !s.main.pc.Died? && !Awaiting(s.main.pc)
    ensures var e := Run(TheMain, a); Next(s, e).main.pc.Died? <==> Fatal(Tell(s, e, st))
  {
  }

  lemma DiedKeeps(s: System, e: Label, st: Story)
    requires Waited(s, st) && (s.main.pc.Died? <==> Fatal(st))
    ensures Next(s, e).main.pc.Died? <==> Fatal(Tell(s, e, st))
  {
    if !s.main.pc.Died? && e.Run? && e.who.TheMain? {
      if Awaiting(s.main.pc) { DiedAwaiting(s, e.a, st); } else { DiedElsewhere(s, e.a, st); }
    }
  }

  lemma WaitedSmoke(s: System, a: Answer, st: Story)
    requires Waited(s, st) && s.main.pc.AwaitSmoke?
    ensures var e := Run(TheMain, a); Waited(Next(s, e), Tell(s, e, st))
  {
    OneMore(st.waits, s.mem.lastSeen, 1);
  }

  lemma WaitedRacing(s: System, a: Answer, st: Story)
    requires Waited(s, st) && s.main.pc.AwaitRacing?
    ensures var e := Run(TheMain, a); Waited(Next(s, e), Tell(s, e, st))
  {
    OneMore(st.waits, s.mem.lastSeen, 2 * s.main.n);
  }

  lemma WaitedProbe(s: System, a: Answer, st: Story)
    requires Waited(s, st) && s.main.pc.AwaitProbe?
    ensures var e := Run(TheMain, a); Waited(Next(s, e), Tell(s, e, st))
  {
    OneMore(st.waits, s.mem.lastSeen, 2 * s.main.n + 1);
  }

  lemma WaitedElsewhere(s: System, a: Answer, st: Story)
    requires Waited(s, st) && !s.main.pc.Died? && !Awaiting(s.main.pc)
    ensures var e := Run(TheMain, a); Waited(Next(s, e), Tell(s, e, st))
  {
  }

  lemma WaitedKeeps(s: System, e: Label, st: Story)
    requires Waited(s, st)
    ensures Waited(Next(s, e), Tell(s, e, st))
  {
    if !s.main.pc.Died? && e.Run? && e.who.TheMain? {
      if s.main.pc.AwaitSmoke? { WaitedSmoke(s, e.a, st); }
      else if s.main.pc.AwaitRacing? { WaitedRacing(s, e.a, st); }
      else if s.main.pc.AwaitProbe? { WaitedProbe(s, e.a, st); }
      else { WaitedElsewhere(s, e.a, st); }
    }
  }

  lemma ProbeAwaiting(s: System, a: Answer, st: Story)
    requires Waited(s, st) && Missing(s) && ProbeDecided(s, st) && s.main.pc.AwaitProbe?
    ensures var e := Run(TheMain, a); ProbeDecided(Next(s, e), Tell(s, e, st))
  {
    OneMore(st.waits, s.mem.lastSeen, 2 * s.main.n + 1);
  }

  lemma ProbeEnding(s: System, a: Answer, st: Story)
    requires ProbeDecided(s, st) && (s.main.pc.PutStop? || Joining(s.main.pc))
    ensures var e := Run(TheMain, a); ProbeDecided(Next(s, e), Tell(s, e, st))
  {
  }

  lemma ProbeEarlier(s: System, a: Answer, st: Story)
    requires Missing(s) && ProbeDecided(s, st)
    requires !s.main.pc.AwaitProbe? && !s.main.pc.PutStop? && !Joining(s.main.pc) && !s.main.pc.Died?
    ensures var e := Run(TheMain, a); ProbeDecided(Next(s, e), Tell(s, e, st))
  {
  }

  lemma ProbeKeeps(s: System, e: Label, st: Story)
    requires Waited(s, st) && Missing(s) && ProbeDecided(s, st)
    ensures ProbeDecided(Next(s, e), Tell(s, e, st))
  {
    if !s.main.pc.Died? && e.Run? && e.who.TheMain? {
      if s.main.pc.AwaitProbe? { ProbeAwaiting(s, e.a, st); }
      else if s.main.pc.PutStop? || Joining(s.main.pc) { ProbeEnding(s, e.a, st); }
      else { ProbeEarlier(s, e.a, st); }
    }
  }

  lemma SentKeeps(s: System, e: Label, st: Story)
    requires Missing(s) && ProbeSent(s, st)
    ensures ProbeSent(Next(s, e), Tell(s, e, st))
  {
  }

  lemma JoinedMain(s: System, e: Label)
    requires Joined(s) && e.who.TheMain?
    ensures Joined(Next(s, e))
  {
  }

  lemma JoinedOthers(s: System, e: Label)
    requires Joined(s) && !e.who.TheMain?
    ensures Joined(Next(s, e))
  {
  }

  datatype Fact = Pace | Looks | Waits | Deaths | Probes | Joins

  predicate Holds(f: Fact, s: System, st: Story) {
    match f
    case Pace => Sound(s)
    case Looks => Looked(s, st) && OldLooks(st)
    case Waits => Waited(s, st)
    case Deaths => s.main.pc.Died? <==> Fatal(st)
    case Probes => ProbeDecided(s, st) && ProbeSent(s, st)
    case Joins => Joined(s)
  }

  ghost predicate Told(s: System, st: Story) { forall f :: Holds(f, s, st) }

  lemma StepTold(s: System, e: Label, st: Story)
    requires Told(s, st)
    ensures Told(Next(s, e), Tell(s, e, st))
  {
    assert Holds(Pace, s, st) && Holds(Waits, s, st);
    forall f ensures Holds(f, Next(s, e), Tell(s, e, st)) {
      assert Holds(f, s, st);
      match f
      case Pace => StepSound(s, e);
      case Looks => LookedKeeps(s, e, st);
      case Waits => WaitedKeeps(s, e, st);
      case Deaths => DiedKeeps(s, e, st);
      case Probes => ProbeKeeps(s, e, st); SentKeeps(s, e, st);
      case Joins => if e.who.TheMain? { JoinedMain(s, e); } else { JoinedOthers(s, e); }
    }
  }

  lemma BootTold(iterations: nat)
    requires iterations < WORD
    ensures Told(Boot(iterations), StoryOf(Boot(iterations), []))
  {
    BootSound(iterations);
    forall f ensures Holds(f, Boot(iterations), StoryOf(Boot(iterations), [])) {}
  }

  lemma RunMore(s: System, run: seq<Label>, e: Label)
    ensures Exec(s, run + [e]) == Next(Exec(s, run), e)
    ensures StoryOf(s, run + [e]) == Tell(Exec(s, run), e, StoryOf(s, run))
  {
    ExecAppend(s, run, [e]);
    assert [e][1..] == [];
    assert (run + [e])[..|run|] == run;
  }

  lemma MoreTold(s: System, run: seq<Label>, e: Label)
    requires Told(Exec(s, run), StoryOf(s, run))
    ensures Told(Exec(s, run + [e]), StoryOf(s, run + [e]))
  {
    StepTold(Exec(s, run), e, StoryOf(s, run));
    RunMore(s, run, e);
  }

  lemma {:induction false} RunTold(iterations: nat, run: seq<Label>)
    requires iterations < WORD
    ensures Told(Exec(Boot(iterations), run), StoryOf(Boot(iterations), run))
    decreases |run|
  {
    if run == [] {
      BootTold(iterations);
    } else {
      var before, e := run[..|run| - 1], run[|run| - 1];
      RunTold(iterations, before);
      MoreTold(Boot(iterations), before, e);
      assert run == before + [e];
    }
  }

  /** The verdict on the probe, read off the last look. */
  predicate ProbeEnd(s: System, st: Story) {
    var x, k := 2 * s.main.n + 1, |st.waits| - 1;
    && st.probe.Some? && (st.probe.value.left ==> x in s.wire)
    && 0 <= k <= 100 && Below(st.waits[..k], x)
    && (s.main.probeLost <==> st.waits[k] < x)
    && (s.main.probeLost ==> k == 100)
  }

  lemma ProbeJudged(s: System, st: Story)
    requires Told(s, st) && s.main.pc.Done?
    ensures if s.main.misses == 1 then ProbeEnd(s, st) else !s.main.probeLost
  {
    assert Holds(Probes, s, st);
    if s.main.misses == 1 && s.main.probeLost {
      var k := |st.waits| - 1;
      assert st.waits[k] < 2 * s.main.n + 1;
    }
  }

  // ----- every run

  /** In every run of every 32-bit count: a miss is counted if and only if both readings
      after one round showed the destination overloaded without a connection, the second
      with both thresholds at 1. */
  lemma MissIffSeenTwice(iterations: nat, run: seq<Label>)
    requires iterations < WORD
    ensures
      var s, st := Exec(Boot(iterations), run), StoryOf(Boot(iterations), run);
      && s.main.misses <= 1
      && (s.main.misses == 1 <==>
            && st.first.Some? && st.second.Some? && st.first.value.round == st.second.value.round
            && st.first.value.a.readable && st.first.value.a.over != 0 && st.first.value.a.total == 0
            && st.second.value.a.readable && st.second.value.a.over != 0 && st.second.value.a.total == 0
            && st.second.value.a.u == 1 && st.second.value.a.l == 1)
      && (s.main.misses == 1 ==> st.second.value.round == s.main.n)
  {
    RunTold(iterations, run);
    var s, st := Exec(Boot(iterations), run), StoryOf(Boot(iterations), run);
    assert Holds(Looks, s, st);
  }

  /** And the last reading decides where main is: a clean destination begins the round, a
      suspicious one is read again, a convicting one is a miss, an unreadable file ends
      the program, and after anything else main has gone on to the next round. */
  lemma LastLookDecides(iterations: nat, run: seq<Label>)
    requires iterations < WORD
    ensures Looked(Exec(Boot(iterations), run), StoryOf(Boot(iterations), run))
  {
    RunTold(iterations, run);
    var s, st := Exec(Boot(iterations), run), StoryOf(Boot(iterations), run);
    assert Holds(Looks, s, st);
  }

  /** The program exits early exactly after a failure, an unclean start or a wait in vain. */
  lemma DiesIffFatal(iterations: nat, run: seq<Label>)
    requires iterations < WORD
    ensures Exec(Boot(iterations), run).main.pc.Died? <==> Fatal(StoryOf(Boot(iterations), run))
  {
    RunTold(iterations, run);
    var s, st := Exec(Boot(iterations), run), StoryOf(Boot(iterations), run);
    assert Holds(Deaths, s, st);
  }

  /** A wait that ends in a packet ends at the first look that shows it, within 1001. */
  lemma WaitsEndAtThePacket(iterations: nat, run: seq<Label>)
    requires iterations < WORD
    ensures
      var s, waits := Exec(Boot(iterations), run), StoryOf(Boot(iterations), run).waits;
      && (s.main.pc.CreateEditor? ==> SeenLast(waits, 1, 1001))
      && (s.main.pc.Inspect? ==> SeenLast(waits, 2 * s.main.n, 1001))
      && (s.main.pc.AwaitRacing? ==> |waits| <= 1000 && Below(waits, 2 * s.main.n))
  {
    RunTold(iterations, run);
    var s, st := Exec(Boot(iterations), run), StoryOf(Boot(iterations), run);
    assert Holds(Waits, s, st);
  }

  /** After a miss the probe has been sent, and it is reported lost if and only if the
      last look at last_seen, then the 101st, saw less than its number. */
  lemma ProbeLostIffUnseen(iterations: nat, run: seq<Label>)
    requires iterations < WORD
    ensures
      var s, st := Exec(Boot(iterations), run), StoryOf(Boot(iterations), run);
      s.main.pc.Done? ==> if s.main.misses == 1 then ProbeEnd(s, st) else !s.main.probeLost
  {
    RunTold(iterations, run);
    var s, st := Exec(Boot(iterations), run), StoryOf(Boot(iterations), run);
    if s.main.pc.Done? { ProbeJudged(s, st); }
  }

  /** Main is done only after all three threads have returned. */
  lemma DoneIsJoined(iterations: nat, run: seq<Label>)
    requires iterations < WORD
    ensures
      var s := Exec(Boot(iterations), run);
      s.main.pc.Done? ==> s.ed.pc.Returned? && s.tx.pc.Returned? && s.rx.pc.Gone?
  {
    RunTold(iterations, run);
    assert Holds(Joins, Exec(Boot(iterations), run), StoryOf(Boot(iterations), run));
  }
}
