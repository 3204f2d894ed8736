/** Netlink messages as the test client receives them: a datagram is split at the
    32-bit lengths of its message headers, and the messages of any number of
    datagrams are gathered until the acknowledgement arrives. */
module NetlinkReplies {
  import opened Prelude
  import opened Octets
  import opened NetlinkTlv

  const HEAD: nat := 16
  const NLMSG_ERROR: nat := 2

  function Word32(b: Bytes, i: nat): (v: nat)
    requires i + 4 <= |b|
    ensures v == b[i] as nat + 256 * b[i + 1] as nat + 65536 * b[i + 2] as nat + 16777216 * b[i + 3] as nat
  {
    Word16(b, i) + 0x1_0000 * Word16(b, i + 2)
  }

  datatype Message = Message(kind: nat, seqno: nat, body: Bytes)

  // ----- splitting a datagram

  predicate Whole(b: Bytes, at: nat)
    requires at + HEAD <= |b|
  {
    HEAD <= Word32(b, at) <= |b| - at
  }

  function After(b: Bytes, at: nat): (next: nat)
    requires at + HEAD <= |b| && Whole(b, at)
    ensures at < next <= |b|
  {
    if at + Align4(Word32(b, at)) <= |b| then at + Align4(Word32(b, at)) else |b|
  }

  function MessageAt(b: Bytes, at: nat): Message
    requires at + HEAD <= |b| && Whole(b, at)
  {
    Message(Word16(b, at + 4), Word32(b, at + 8), b[at + HEAD..at + Word32(b, at)])
  }

  /** None is the failed assertion on a length. */
  function Split(b: Bytes, at: nat): Option<seq<Message>>
    requires at <= |b|
    decreases |b| - at
  {
    if |b| - at < HEAD then Some([])
    else if !Whole(b, at) then None
    else Behind([MessageAt(b, at)], Split(b, After(b, at)))
  }

  function Behind(ms: seq<Message>, rest: Option<seq<Message>>): Option<seq<Message>> {
    match rest
    case Some(ns) => Some(ms + ns)
    case None => None
  }

  lemma BehindBehind(ms: seq<Message>, ns: seq<Message>, rest: Option<seq<Message>>)
    ensures Behind([], rest) == rest
    ensures Behind(ms, Behind(ns, rest)) == Behind(ms + ns, rest)
  {
    if rest.Some? {
      assert [] + rest.value == rest.value;
      assert ms + (ns + rest.value) == ms + ns + rest.value;
    }
  }

  /** receive */
  method Receive(data: Bytes) returns (r: Option<seq<Message>>)
    ensures r == Split(data, 0)
  {
    var messages: seq<Message> := [];
    var at := 0;
    BehindBehind([], [], Split(data, 0));
    while |data| - at >= HEAD
      invariant at <= |data| && Split(data, 0) == Behind(messages, Split(data, at))
    {
      var length := Word32(data, at);
      if !(HEAD <= length <= |data| - at) {
        return None;
      }
      BehindBehind(messages, [MessageAt(data, at)], Split(data, After(data, at)));
      messages := messages + [MessageAt(data, at)];
      at := if at + Align4(length) <= |data| then at + Align4(length) else |data|;
    }
    assert messages + [] == messages;
    return Some(messages);
  }

  // ----- datagrams of whole messages

  /** From at on, b holds these messages, each padded to a whole number of words but
      for the last, whose padding may be missing; too few bytes for a header may be left. */
  predicate Carries(b: Bytes, at: nat, ms: seq<Message>)
    requires at <= |b|
    decreases |ms|
  {
    if ms == [] then |b| - at < HEAD
    else
      && at + HEAD + |ms[0].body| <= |b|
      && Word32(b, at) == HEAD + |ms[0].body|
      && Word16(b, at + 4) == ms[0].kind && Word32(b, at + 8) == ms[0].seqno
      && (forall i :: 0 <= i < |ms[0].body| ==> b[at + HEAD + i] == ms[0].body[i])
      && var next := at + Align4(HEAD + |ms[0].body|);
         if next <= |b| then Carries(b, next, ms[1..]) else |ms| == 1
  }

  /** Splitting finds exactly the messages a datagram carries... */
  lemma {:induction false} SplitFindsAll(b: Bytes, at: nat, ms: seq<Message>)
    requires at <= |b| && Carries(b, at, ms)
    ensures Split(b, at) == Some(ms)
    decreases |ms|
  {
    if ms != [] {
      assert b[at + HEAD..at + HEAD + |ms[0].body|] == ms[0].body;
      assert MessageAt(b, at) == ms[0];
      if at + Align4(HEAD + |ms[0].body|) <= |b| {
        SplitFindsAll(b, After(b, at), ms[1..]);
      } else {
        assert After(b, at) == |b|;
        assert ms[1..] == [];
      }
      assert [ms[0]] + ms[1..] == ms;
    }
  }

  /** ...and only those: what it finds, the datagram carries. */
  lemma {:induction false} SplitFindsOnly(b: Bytes, at: nat, ms: seq<Message>)
    requires at <= |b| && Split(b, at) == Some(ms)
    ensures Carries(b, at, ms)
    decreases |ms|
  {
    if |b| - at >= HEAD {
      var rest := Split(b, After(b, at)).value;
      assert ms == [MessageAt(b, at)] + rest;
      assert ms[1..] == rest && ms[0] == MessageAt(b, at);
      if at + Align4(HEAD + |ms[0].body|) <= |b| { SplitFindsOnly(b, After(b, at), rest); }
    }
  }

  /** So a datagram carries at most one sequence of messages, and splitting fails exactly
      on those that carry none. */
  lemma SplitIffCarries(b: Bytes, ms: seq<Message>)
    ensures Split(b, 0) == Some(ms) <==> Carries(b, 0, ms)
  {
    if Split(b, 0) == Some(ms) { SplitFindsOnly(b, 0, ms); }
    if Carries(b, 0, ms) { SplitFindsAll(b, 0, ms); }
  }

  // ----- packed messages

  /** A message with the header fields that a receiver does not keep. */
  datatype Packet = Packet(m: Message, flags: nat, port: nat)

  /** struct.pack('=IHHII', ...) and the body. */
  function Pack(p: Packet): (b: Bytes)
    ensures |b| == 16 + |p.m.body|
  {
    Le32(16 + |p.m.body|) + Le16(p.m.kind) + Le16(p.flags) + Le32(p.m.seqno) + Le32(p.port) + p.m.body
  }

  function Padded(p: Packet): Bytes { Pack(p) + Zeros(Align4(|Pack(p)|) - |Pack(p)|) }

  function PackAll(ps: seq<Packet>): Bytes { if ps == [] then [] else Padded(ps[0]) + PackAll(ps[1..]) }

  function Messages(ps: seq<Packet>): (ms: seq<Message>)
    ensures |ms| == |ps| && forall i :: 0 <= i < |ms| ==> ms[i] == ps[i].m
  {
    if ps == [] then [] else [ps[0].m] + Messages(ps[1..])
  }

  /** Every field fits its place. */
  predicate Packable(p: Packet) {
    16 + |p.m.body| < 0x1_0000_0000 && p.m.kind < 0x1_0000 && p.m.seqno < 0x1_0000_0000
  }

  /** b holds p's bytes from at on. */
  predicate Holds(b: Bytes, at: nat, p: Packet) {
    at + |Pack(p)| <= |b| && forall i :: 0 <= i < |Pack(p)| ==> b[at + i] == Pack(p)[i]
  }

  lemma HeldFields(b: Bytes, at: nat, p: Packet)
    requires Holds(b, at, p) && Packable(p)
    ensures Word32(b, at) == 16 + |p.m.body| && Word16(b, at + 4) == p.m.kind && Word32(b, at + 8) == p.m.seqno
    ensures forall i :: 0 <= i < |p.m.body| ==> b[at + 16 + i] == p.m.body[i]
  {
    var q := Pack(p);
    assert q[0..4] == Le32(16 + |p.m.body|) && q[4..6] == Le16(p.m.kind) && q[8..12] == Le32(p.m.seqno);
    assert q[16..] == p.m.body;
    HeldWord(b, at, q, 0, 16 + |p.m.body|);
    HeldWord(b, at, q, 8, p.m.seqno);
    assert b[at + 4] == q[4] && b[at + 5] == q[5];
    Word16OfLe16(b, at + 4, p.m.kind);
    forall i | 0 <= i < |p.m.body| ensures b[at + 16 + i] == p.m.body[i] { assert b[at + (16 + i)] == q[16 + i]; }
  }

  lemma HeldWord(b: Bytes, at: nat, q: Bytes, k: nat, v: nat)
    requires at + |q| <= |b| && k + 4 <= |q| && q[k..k + 4] == Le32(v) && v < 0x1_0000_0000
    requires forall i :: 0 <= i < |q| ==> b[at + i] == q[i]
    ensures Word32(b, at + k) == v
  {
    var d := q[k..k + 4];
    assert d[0] == q[k] && d[1] == q[k + 1] && d[2] == q[k + 2] && d[3] == q[k + 3];
    assert b[at + k] == q[k] && b[at + (k + 1)] == q[k + 1];
    assert b[at + (k + 2)] == q[k + 2] && b[at + (k + 3)] == q[k + 3];
    Le32Digits(v);
  }

  lemma CarriesOneMore(b: Bytes, at: nat, p: Packet, ms: seq<Message>)
    requires Holds(b, at, p) && Packable(p) && at + |Padded(p)| <= |b|
    requires Carries(b, at + |Padded(p)|, ms)
    ensures Carries(b, at, [p.m] + ms)
  {
    HeldFields(b, at, p);
    assert ([p.m] + ms)[1..] == ms;
  }

  lemma {:induction false} PackedCarries(before: Bytes, ps: seq<Packet>)
    requires forall i :: 0 <= i < |ps| ==> Packable(ps[i])
    ensures Carries(before + PackAll(ps), |before|, Messages(ps))
    decreases |ps|
  {
    var b := before + PackAll(ps);
    if ps != [] {
      var p := ps[0];
      assert b == before + Padded(p) + PackAll(ps[1..]);
      forall i | 0 <= i < |Pack(p)| ensures b[|before| + i] == Pack(p)[i] {
        assert Padded(p)[i] == Pack(p)[i];
      }
      PackedCarries(before + Padded(p), ps[1..]);
      CarriesOneMore(b, |before|, p, Messages(ps[1..]));
    }
  }

  /** Messages packed field by field, padded and put together are split back into exactly
      those messages. */
  lemma SplitUndoesPack(ps: seq<Packet>)
    requires forall i :: 0 <= i < |ps| ==> Packable(ps[i])
    ensures Split(PackAll(ps), 0) == Some(Messages(ps))
  {
    PackedCarries([], ps);
    assert [] + PackAll(ps) == PackAll(ps);
    SplitFindsAll(PackAll(ps), 0, Messages(ps));
  }

  // ----- gathering a reply

  datatype Part = Part(kind: nat, body: Bytes)

  datatype Outcome =
    | Waiting(parts: seq<Part>)
    | Finished(parts: seq<Part>)
    | Refused(errno: int)
    | WrongSequence
    | Malformed

  function Signed32(n: nat): int { if n < 0x8000_0000 then n else n - 0x1_0000_0000 }

  /** One message of a reply. */
  function Take(parts: seq<Part>, m: Message, sequence: nat): Outcome {
    if m.seqno != sequence then WrongSequence
    else if m.kind != NLMSG_ERROR then Waiting(parts + [Part(m.kind, m.body)])
    else if |m.body| < 4 then Malformed
    else if Word32(m.body, 0) != 0 then Refused(-Signed32(Word32(m.body, 0)))
    else Finished(parts)
  }

  function Gather(parts: seq<Part>, ms: seq<Message>, sequence: nat): Outcome
    decreases |ms|
  {
    if ms == [] then Waiting(parts)
    else match Take(parts, ms[0], sequence)
         case Waiting(more) => Gather(more, ms[1..], sequence)
         case done => done
  }

  /** The datagrams one after the other; still waiting at the end is the timeout. */
  function Reply(parts: seq<Part>, datagrams: seq<Bytes>, sequence: nat): Outcome
    decreases |datagrams|
  {
    if datagrams == [] then Waiting(parts)
    else match Split(datagrams[0], 0)
         case None => Malformed
         case Some(ms) =>
           match Gather(parts, ms, sequence)
           case Waiting(more) => Reply(more, datagrams[1..], sequence)
           case done => done
  }

  /** The receiving loop of request. */
  method Request(datagrams: seq<Bytes>, sequence: nat) returns (r: Outcome)
    ensures r == Reply([], datagrams, sequence)
  {
    var response: seq<Part> := [];
    for d := 0 to |datagrams|
      invariant Reply([], datagrams, sequence) == Reply(response, datagrams[d..], sequence)
    {
      assert datagrams[d..][0] == datagrams[d] && datagrams[d..][1..] == datagrams[d + 1..];
      var messages := Receive(datagrams[d]);
      if messages == None {
        return Malformed;
      }
      ghost var before := response;
      for i := 0 to |messages.value|
        invariant Gather(before, messages.value, sequence) == Gather(response, messages.value[i..], sequence)
      {
        assert messages.value[i..][0] == messages.value[i] && messages.value[i..][1..] == messages.value[i + 1..];
        var t := Take(response, messages.value[i], sequence);
        if !t.Waiting? {
          return t;
        }
        response := t.parts;
      }
    }
    return Waiting(response);
  }

  function Concat(mss: seq<seq<Message>>): seq<Message>
    decreases |mss|
  {
    if mss == [] then [] else mss[0] + Concat(mss[1..])
  }

  lemma {:induction false} GatherAppend(parts: seq<Part>, ms: seq<Message>, ns: seq<Message>, sequence: nat)
    ensures Gather(parts, ms + ns, sequence) ==
      match Gather(parts, ms, sequence) { case Waiting(more) => Gather(more, ns, sequence) case done => done }
    decreases |ms|
  {
    if ms == [] {
      assert ms + ns == ns;
    } else {
      assert (ms + ns)[1..] == ms[1..] + ns;
      var t := Take(parts, ms[0], sequence);
      if t.Waiting? { GatherAppend(t.parts, ms[1..], ns, sequence); }
    }
  }

  /** How the kernel spreads the messages over datagrams makes no difference. */
  lemma {:induction false} DatagramsDoNotMatter(
    parts: seq<Part>, datagrams: seq<Bytes>, mss: seq<seq<Message>>, sequence: nat)
    requires |datagrams| == |mss| && forall d :: 0 <= d < |mss| ==> Carries(datagrams[d], 0, mss[d])
    ensures Reply(parts, datagrams, sequence) == Gather(parts, Concat(mss), sequence)
    decreases |mss|
  {
    if mss != [] {
      SplitFindsAll(datagrams[0], 0, mss[0]);
      GatherAppend(parts, mss[0], Concat(mss[1..]), sequence);
      var g := Gather(parts, mss[0], sequence);
      if g.Waiting? { DatagramsDoNotMatter(g.parts, datagrams[1..], mss[1..], sequence); }
    }
  }

  /** What a message with an error number does to the reply, from the bytes of the number:
      a negative one is refused with its opposite. */
  function Acknowledged(parts: seq<Part>, body: Bytes): Outcome {
    if |body| < 4 then Malformed
    else
      var n := body[0] as int + 256 * body[1] as int + 65536 * body[2] as int + 16777216 * body[3] as int;
      if n == 0 then Finished(parts)
      else if n < 0x8000_0000 then Refused(-n)
      else Refused(0x1_0000_0000 - n)
  }

  /** A part of the reply with the expected sequence number. */
  predicate Ordinary(m: Message, sequence: nat) { m.seqno == sequence && m.kind != 2 }

  function Parts(ms: seq<Message>): seq<Part> {
    seq(|ms|, i requires 0 <= i < |ms| => Part(ms[i].kind, ms[i].body))
  }

  /** The first message that is not an ordinary part decides the reply: with another
      sequence number it fails the assertion, otherwise it is the acknowledgement; what
      comes after it does not matter. */
  lemma {:induction false} FirstOtherDecides(
    parts: seq<Part>, ms: seq<Message>, m: Message, rest: seq<Message>, sequence: nat)
    requires (forall i :: 0 <= i < |ms| ==> Ordinary(ms[i], sequence)) && !Ordinary(m, sequence)
    ensures
      Gather(parts, ms + [m] + rest, sequence)
        == if m.seqno != sequence then WrongSequence else Acknowledged(parts + Parts(ms), m.body)
    decreases |ms|
  {
    var all := ms + [m] + rest;
    if ms == [] {
      assert all[0] == m;
      assert parts + Parts(ms) == parts;
    } else {
      var first := Part(ms[0].kind, ms[0].body);
      assert all[0] == ms[0] && all[1..] == ms[1..] + [m] + rest;
      FirstOtherDecides(parts + [first], ms[1..], m, rest, sequence);
      assert parts + [first] + Parts(ms[1..]) == parts + Parts(ms);
    }
  }

  /** Ordinary parts alone are gathered, and the client waits for more. */
  lemma {:induction false} OrdinaryWaits(parts: seq<Part>, ms: seq<Message>, sequence: nat)
    requires forall i :: 0 <= i < |ms| ==> Ordinary(ms[i], sequence)
    ensures Gather(parts, ms, sequence) == Waiting(parts + Parts(ms))
    decreases |ms|
  {
    if ms == [] {
      assert parts + Parts(ms) == parts;
    } else {
      var first := Part(ms[0].kind, ms[0].body);
      OrdinaryWaits(parts + [first], ms[1..], sequence);
      assert parts + [first] + Parts(ms[1..]) == parts + Parts(ms);
    }
  }

  /** A datagram that cannot be split, after others that left the reply waiting, fails
      the assertion. */
  lemma {:induction false} BadDatagramFails(
    parts: seq<Part>, datagrams: seq<Bytes>, mss: seq<seq<Message>>, bad: Bytes, rest: seq<Bytes>, sequence: nat)
    requires |datagrams| == |mss| && forall d :: 0 <= d < |mss| ==> Carries(datagrams[d], 0, mss[d])
    requires Split(bad, 0) == None && Gather(parts, Concat(mss), sequence).Waiting?
    ensures Reply(parts, datagrams + [bad] + rest, sequence) == Malformed
    decreases |mss|
  {
    var all := datagrams + [bad] + rest;
    if mss == [] {
      assert all[0] == bad;
    } else {
      assert all[0] == datagrams[0] && all[1..] == datagrams[1..] + [bad] + rest;
      SplitFindsAll(datagrams[0], 0, mss[0]);
      GatherAppend(parts, mss[0], Concat(mss[1..]), sequence);
      BadDatagramFails(Gather(parts, mss[0], sequence).parts, datagrams[1..], mss[1..], bad, rest, sequence);
    }
  }

  /** An acknowledged reply is every part in front of the acknowledgement, or the error
      that the acknowledgement carries. */
  lemma AcknowledgedReply(parts: seq<Part>, ms: seq<Message>, ack: Message, rest: seq<Message>, sequence: nat)
    requires forall i :: 0 <= i < |ms| ==> ms[i].kind != 2 && ms[i].seqno == sequence
    requires ack.kind == 2 && ack.seqno == sequence && |ack.body| >= 4
    ensures
      var r, b := Gather(parts, ms + [ack] + rest, sequence), ack.body;
      var n := b[0] as int + 256 * b[1] as int + 65536 * b[2] as int + 16777216 * b[3] as int;
      if n == 0 then
        r == Finished(parts + Parts(ms))
      else
        r.Refused? && -0x8000_0000 < r.errno <= 0x8000_0000 && (n + r.errno) % 0x1_0000_0000 == 0
  {
    FirstOtherDecides(parts, ms, ack, rest, sequence);
  }
}
