/**
 * Sender, network and receiver of the command channel as one transition system. The network
 * may lose, reorder and duplicate: what was put on it once may arrive any number of times, in
 * any order, or never, and packets made without the key may arrive at any time. The connection is
 * established. A fatal error of the receiver ends it: from then on nothing is received any more.
 */
module CommandChannel {
  import opened Prelude
  import opened PacketIds
  import opened Fragmentation
  import opened CommandCodec
  import opened Resender
  import opened AckNumbers

  datatype Channel = Channel(
    codec: Codec,
    commands: seq<Packet>,    // handed to send_packet so far
    stream: Stream,           // their fragments, numbered
    pending: seq<nat>,        // ids in full_send_queue, lowest first
    net: set<nat>,            // positions that were sent
    acks: Acks,               // ack packets that were sent, and the id of those expected
    receiver: Receiver,
    consumed: seq<Wire>,      // the packets that were in order, as they were gone through
    released: seq<Packet>,    // what the receiving application got
    ended: Option<ReceiveError>, // the error that ended the connection
    announced: seq<int>)      // AckPacket items of the sending application
  {
    /** The position that the receiver expects. */
    function Next(): nat {
      stream.start + |consumed|
    }
  }

  function Initial(codec: Codec, start: nat, acks: Acks): Channel {
    Channel(codec, [], Stream(start, []), [], {}, acks, Receiver(Of(start), [], None), [], [], None, [])
  }

  /** Packets arrive by their position, acks by their number among those that were sent. */
  datatype Step =
    | Send(command: Packet)
    | Transmit(p: nat)
    | Arrive(p: nat)
    | AckArrives(k: nat)
    | Forge(w: Wire)         // a packet that was made without the key arrives

  /** The key under which the resender files the packet of position p. */
  function KeyOf(s: Channel, p: nat): nat
    requires s.stream.start <= p < s.stream.End()
  {
    Numbered(p, s.stream.packets[p - s.stream.start]).Key()
  }

  function Keys(n: nat, ps: seq<Packet>): (keys: seq<nat>)
    ensures |keys| == |ps|
    ensures forall i :: 0 <= i < |keys| ==> keys[i] == Numbered(n + i, ps[i]).Key()
  {
    seq(|ps|, i requires 0 <= i < |ps| => Numbered(n + i, ps[i]).Key())
  }

  /** A map keeps its keys in order. */
  function Enqueue(pending: seq<nat>, key: nat): seq<nat> {
    if pending == [] || key < pending[0] then [key] + pending
    else if key == pending[0] then pending
    else [pending[0]] + Enqueue(pending[1..], key)
  }

  function EnqueueAll(pending: seq<nat>, keys: seq<nat>): seq<nat> {
    if keys == [] then pending else Enqueue(EnqueueAll(pending, keys[..|keys| - 1]), keys[|keys| - 1])
  }

  lemma {:induction false} EnqueueMembers(pending: seq<nat>, key: nat)
    ensures forall k {:trigger k in Enqueue(pending, key)} :: k in Enqueue(pending, key) <==> k in pending || k == key
    ensures Increasing(pending) ==> Increasing(Enqueue(pending, key))
  {
    if pending != [] && key > pending[0] {
      var rest := pending[1..];
      EnqueueMembers(rest, key);
      assert forall k {:trigger k in pending} :: k in pending <==> k == pending[0] || k in rest;
      if Increasing(pending) {
        assert Increasing(rest);
        forall i | 0 <= i < |Enqueue(rest, key)|
          ensures pending[0] < Enqueue(rest, key)[i]
        {
          assert Enqueue(rest, key)[i] in Enqueue(rest, key);
        }
      }
    }
  }

  lemma {:induction false} EnqueueAllMembers(pending: seq<nat>, keys: seq<nat>)
    ensures forall k {:trigger k in EnqueueAll(pending, keys)} ::
            k in EnqueueAll(pending, keys) <==> k in pending || k in keys
    ensures Increasing(pending) ==> Increasing(EnqueueAll(pending, keys))
  {
    if keys != [] {
      var last := |keys| - 1;
      EnqueueAllMembers(pending, keys[..last]);
      EnqueueMembers(EnqueueAll(pending, keys[..last]), keys[last]);
      assert forall k {:trigger k in keys} :: k in keys <==> k in keys[..last] || k == keys[last];
    }
  }

  function React(s: Channel, re: Reaction, ws: seq<Wire>): Channel {
    s.(receiver := re.receiver,
       consumed := s.consumed + ws,
       released := s.released + re.released,
       acks := if re.ack.Some? then s.acks.Sending(re.ack.value) else s.acks,
       ended := if re.error.Some? && re.error.value.Fatal() then re.error else None)
  }

  /** A step that cannot be taken changes nothing. */
  function Apply(s: Channel, step: Step): Channel {
    match step
    case Send(command) =>
      var ps := Split(s.codec, Outgoing(command));
      s.(commands := s.commands + [Outgoing(command)],
         stream := s.stream.(packets := s.stream.packets + ps),
         pending := EnqueueAll(s.pending, Keys(s.stream.End(), ps)))
    case Transmit(p) =>
      if s.stream.start <= p < s.stream.End() && KeyOf(s, p) in s.pending then s.(net := s.net + {p}) else s
    case Arrive(p) =>
      if s.ended.None? && p in s.net && s.stream.start <= p < s.stream.End() then
        var w := s.stream.At(p);
        React(s, HandleUdp(s.codec, s.receiver, w), Consumed(s.codec, s.receiver, w))
      else s
    case AckArrives(k) =>
      if IsRead(s, k) then
        var event := AckEvent(s.pending, s.acks.sent[k], s.stream.End());
        s.(acks := s.acks.Reading(s.acks.first + k),
           pending := AfterAck(s.pending, s.acks.sent[k]),
           announced := if event.Some? then s.announced + [event.value] else s.announced)
      else s
    case Forge(w) =>
      if s.ended.None? && Forged(s.receiver, w) then
        React(s, HandleUdp(s.codec, s.receiver, w), Consumed(s.codec, s.receiver, w))
      else s
  }

  /** A forged packet leaves the receiver alone; at most it is acked. */
  lemma ForgeIs(s: Channel, w: Wire)
    ensures Apply(s, Forge(w)) ==
            if s.ended.None? && Forged(s.receiver, w) && !InReceiveWindow(s.receiver.next, w.id).inWindow
            then s.(acks := s.acks.Sending(w.id)) else s
  {
    hide HandleUdp, Consumed, Forged;
    if s.ended.None? && Forged(s.receiver, w) {
      ForgedIsRefused(s.codec, s.receiver, w);
      ForgedIsNotConsumed(s.codec, s.receiver, w);
      assert s.consumed + [] == s.consumed && s.released + [] == s.released;
    }
  }

  /** Ack k was sent, and it can be decrypted. */
  predicate IsRead(s: Channel, k: nat) {
    k < |s.acks.sent| && s.acks.Reads(s.acks.first + k)
  }

  function Run(s: Channel, steps: seq<Step>): Channel
    decreases |steps|
  {
    if steps == [] then s else Apply(Run(s, steps[..|steps| - 1]), steps[|steps| - 1])
  }

  lemma RunOfOne(s: Channel, a: Step)
    ensures Run(s, [a]) == Apply(s, a)
  {
    hide Apply;
    assert [a][..0] == [];
    assert Run(s, []) == s;
  }

  lemma RunOfTwo(s: Channel, a: Step, b: Step)
    ensures Run(s, [a, b]) == Apply(Apply(s, a), b)
  {
    hide Apply;
    assert [a, b][..1] == [a];
    RunOfOne(s, a);
  }

  lemma RunOfThree(s: Channel, a: Step, b: Step, c: Step)
    ensures Run(s, [a, b, c]) == Apply(Apply(Apply(s, a), b), c)
  {
    hide Apply;
    assert [a, b, c][..2] == [a, b];
    RunOfTwo(s, a, b);
  }

  lemma {:induction false} RunConcat(s: Channel, a: seq<Step>, b: seq<Step>)
    ensures Run(s, a + b) == Run(Run(s, a), b)
    decreases |b|
  {
    hide Apply;
    if b == [] {
      assert a + b == a;
    } else {
      var k := |b| - 1;
      assert (a + b)[..|a| + k] == a + b[..k];
      RunConcat(s, a, b[..k]);
    }
  }

  // ---------------------------------------------------------------- what the users take care of

  /** Commands are handed over plain and small enough to be put together again. */
  ghost predicate Proper(s: Channel, step: Step) {
    step.Send? ==>
      step.command.Plain() && !step.command.flags.unencrypted
      && Deliverable(s.codec, Outgoing(step.command))
      && s.stream.End() + |Split(s.codec, Outgoing(step.command))| <= STREAM_LIMIT
  }

  /** The check that the receive queue does not make: the id is not waiting already. */
  predicate NotWaiting(s: Channel, step: Step) {
    step.Arrive? ==> Extract(s.receiver.queue, step.p % ID_RANGE).None?
  }

  ghost predicate Always(s: Channel, steps: seq<Step>, ok: (Channel, Step) -> bool) {
    forall k {:trigger Run(s, steps[..k])} :: 0 <= k < |steps| ==> ok(Run(s, steps[..k]), steps[k])
  }

  lemma AlwaysFront(s: Channel, steps: seq<Step>, ok: (Channel, Step) -> bool)
    requires steps != []
    ensures var k := |steps| - 1;
      Always(s, steps, ok) <==> Always(s, steps[..k], ok) && ok(Run(s, steps[..k]), steps[k])
  {
    hide Run;
    var front := steps[..|steps| - 1];
    assert forall k {:trigger front[..k]} :: 0 <= k < |front| ==> front[..k] == steps[..k] && front[k] == steps[k];
    if Always(s, steps, ok) {
      forall k | 0 <= k < |front|
        ensures ok(Run(s, front[..k]), front[k])
      {
        assert front[..k] == steps[..k];
      }
    }
    if Always(s, front, ok) && ok(Run(s, front), steps[|front|]) {
      forall k | 0 <= k < |steps|
        ensures ok(Run(s, steps[..k]), steps[k])
      {
        if k < |front| { assert front[..k] == steps[..k] && front[k] == steps[k]; }
      }
    }
  }

  lemma AlwaysConcat(s: Channel, a: seq<Step>, b: seq<Step>, ok: (Channel, Step) -> bool)
    requires Always(s, a, ok) && Always(Run(s, a), b, ok)
    ensures Always(s, a + b, ok)
  {
    hide Run;
    forall k | 0 <= k < |a + b|
      ensures ok(Run(s, (a + b)[..k]), (a + b)[k])
    {
      if k < |a| {
        assert (a + b)[..k] == a[..k];
      } else {
        assert (a + b)[..k] == a + b[..k - |a|];
        RunConcat(s, a, b[..k - |a|]);
      }
    }
  }

  lemma AlwaysOne(s: Channel, a: Step, ok: (Channel, Step) -> bool)
    requires ok(s, a)
    ensures Always(s, [a], ok)
  {
    assert [a][..0] == [];
  }

  lemma AlwaysTwo(s: Channel, a: Step, b: Step, ok: (Channel, Step) -> bool)
    requires ok(s, a) && ok(Apply(s, a), b)
    ensures Always(s, [a, b], ok)
  {
    hide Apply;
    AlwaysOne(s, a, ok);
    AlwaysOne(Apply(s, a), b, ok);
    RunOfOne(s, a);
    AlwaysConcat(s, [a], [b], ok);
    assert [a] + [b] == [a, b];
  }

  lemma AlwaysThree(s: Channel, a: Step, b: Step, c: Step, ok: (Channel, Step) -> bool)
    requires ok(s, a) && ok(Apply(s, a), b) && ok(Apply(Apply(s, a), b), c)
    ensures Always(s, [a, b, c], ok)
  {
    hide Apply;
    AlwaysTwo(s, a, b, ok);
    AlwaysOne(Apply(Apply(s, a), b), c, ok);
    RunOfTwo(s, a, b);
    AlwaysConcat(s, [a, b], [c], ok);
    assert [a, b] + [c] == [a, b, c];
  }

  lemma AlwaysWeaker(s: Channel, steps: seq<Step>, ok: (Channel, Step) -> bool, weak: (Channel, Step) -> bool)
    requires Always(s, steps, ok)
    requires forall c, step {:trigger weak(c, step)} :: ok(c, step) ==> weak(c, step)
    ensures Always(s, steps, weak)
  {
    hide Run;
  }

  // ---------------------------------------------------------------- safety

  /** What was sent is well-formed, and the network carries nothing else. */
  ghost predicate Sane(s: Channel) {
    Lawful(s.codec) && Sendable(s.codec, s.commands)
    && s.stream.packets == SplitAll(s.codec, s.commands)
    && s.stream.Valid(s.codec)
    && forall p {:trigger p in s.net} :: p in s.net ==> s.stream.start <= p < s.stream.End()
  }

  /** The packets are those of the stream from its start on, position by position. */
  ghost predicate Follows(s: Stream, consumed: seq<Wire>) {
    s.start + |consumed| <= s.End()
    && forall i {:trigger consumed[i]} :: 0 <= i < |consumed| ==> consumed[i] == s.At(s.start + i)
  }

  /** What was consumed and released is a prefix of what was sent. */
  ghost predicate Prefixed(s: Channel) {
    Sane(s) && Follows(s.stream, s.consumed) && s.released == s.stream.Before(s.codec, s.Next()).released
  }

  /** The packets consumed are the positions from the first one on, each once. */
  ghost predicate InStep(s: Channel) {
    forall i {:trigger s.consumed[i]} :: 0 <= i < |s.consumed| ==> s.consumed[i].Position() == s.stream.start + i
  }

  lemma FollowsInStep(s: Stream, consumed: seq<Wire>, i: nat)
    requires Follows(s, consumed) && s.End() <= FULL_RANGE && i < |consumed|
    ensures consumed[i].Position() == s.start + i
  {
    AtIsGenuine(s, s.start + i);
  }

  lemma {:induction false} PrefixedIsInStep(s: Channel)
    requires Prefixed(s)
    ensures InStep(s)
  {
    hide Sane, Follows, Stream.Before;
    forall i | 0 <= i < |s.consumed|
      ensures s.consumed[i].Position() == s.stream.start + i
    {
      EndLimited(s);
      FollowsInStep(s.stream, s.consumed, i);
    }
  }

  lemma {:induction false} EndLimited(s: Channel)
    requires Sane(s)
    ensures s.stream.End() <= STREAM_LIMIT
  {
  }

  /** The receiver fits the stream, unless reassembly failed. */
  ghost predicate Consistent(s: Channel, horizon: nat) {
    Prefixed(s)
    && (s.ended.None? || s.ended.value.CommandQueueFull? ==>
          InSync(s.codec, s.stream, horizon, s.Next(), s.receiver, s.released)
          && !Queued(multiset(s.receiver.queue), s.Next()))
  }

  lemma InitialConsistent(codec: Codec, start: nat, acks: Acks, horizon: nat)
    requires Lawful(codec) && start <= STREAM_LIMIT
    ensures Consistent(Initial(codec, start, acks), horizon)
  {
  }

  lemma {:induction false} SplitEncrypted(codec: Codec, packet: Packet)
    requires !packet.flags.unencrypted
    ensures forall i :: 0 <= i < |Split(codec, packet)| ==> !Split(codec, packet)[i].flags.unencrypted
  {
  }

  /** A longer stream changes nothing for the receiver. */
  lemma StreamGrows(codec: Codec, s: Stream, ps: seq<Packet>, horizon: nat, n: nat, r: Receiver, released: seq<Packet>)
    requires InSync(codec, s, horizon, n, r, released)
    ensures InSync(codec, s.(packets := s.packets + ps), horizon, n, r, released)
  {
    assert (s.packets + ps)[..n - s.start] == s.packets[..n - s.start];
    forall w | w in multiset(r.queue)
      ensures s.(packets := s.packets + ps).Genuine(w)
    {
      assert Waits(s, horizon, n, w);
    }
  }

  lemma {:induction false} SendConsistent(s: Channel, command: Packet, horizon: nat)
    requires Consistent(s, horizon) && Proper(s, Send(command))
    ensures Consistent(Apply(s, Send(command)), horizon)
  {
    hide Split, SplitAll, Sendable, Deliverable, Assemble, InSync, Queued, Outgoing, Lawful, EnqueueAll, Follows;
    var out := Outgoing(command);
    OutgoingKeeps(command);
    OneMoreCommand(s.codec, s.commands, out);
    if s.ended.None? || s.ended.value.CommandQueueFull? {
      StreamGrows(s.codec, s.stream, Split(s.codec, out), horizon, s.Next(), s.receiver, s.released);
    }
    FollowsLonger(s.stream, Split(s.codec, out), s.consumed);
    SplitEncrypted(s.codec, out);
  }

  lemma FollowsLonger(s: Stream, ps: seq<Packet>, consumed: seq<Wire>)
    requires Follows(s, consumed)
    ensures Follows(s.(packets := s.packets + ps), consumed)
    ensures (s.packets + ps)[..|consumed|] == s.packets[..|consumed|]
  {
  }

  lemma OutgoingKeeps(command: Packet)
    ensures Outgoing(command).flags.unencrypted == command.flags.unencrypted
    ensures Outgoing(command).Plain() == command.Plain()
  {
  }

  lemma {:induction false} OneMoreCommand(codec: Codec, commands: seq<Packet>, out: Packet)
    requires Lawful(codec) && Sendable(codec, commands) && out.Plain() && Deliverable(codec, out)
    ensures var more := commands + [out];
      && Sendable(codec, more) && SplitAll(codec, more) == SplitAll(codec, commands) + Split(codec, out)
      && !Assemble(codec, NOTHING, SplitAll(codec, more)).failed
  {
    hide Split, Deliverable, Assemble, Lawful;
    var more := commands + [out];
    assert more[..|commands|] == commands;
    StreamRoundTrip(codec, more);
  }

  /** The packets that the loop would go through if position p was in order. */
  function TakenAt(s: Channel, p: nat): seq<Wire> {
    if s.stream.start <= p < s.stream.End() then Taken(s.receiver.queue, s.stream.At(p)).0 else []
  }

  lemma {:induction false} ArriveConsistent(s: Channel, p: nat, horizon: nat) returns (n': nat, re: Reaction)
    requires Consistent(s, horizon) && s.ended.None? && p in s.net
    requires p == s.Next() ==> s.stream.End() <= horizon || p + |TakenAt(s, p)| <= horizon
    requires s.Next() < p < s.Next() + MAX_QUEUE_LEN && Queued(multiset(s.receiver.queue), p) ==> horizon < p + ID_RANGE
    ensures s.stream.start <= p < s.stream.End()
    ensures GoodReaction(s.codec, s.stream, horizon, s.Next(), s.receiver, s.released, p, n', re)
    ensures Apply(s, Arrive(p)) == React(s, re, Consumed(s.codec, s.receiver, s.stream.At(p)))
    ensures re == HandleUdp(s.codec, s.receiver, s.stream.At(p)) && Apply(s, Arrive(p)).Next() == n'
    ensures Consistent(Apply(s, Arrive(p)), horizon)
  {
    hide Consumed, HandleUdp, Stream.At, Sendable, SplitAll, Lawful, Queued, Received, Follows;
    re := HandleUdp(s.codec, s.receiver, s.stream.At(p));
    n' := ArrivalKeepsStep(s.codec, s.stream, horizon, s.Next(), s.receiver, s.released, p);
    FollowsOn(s.stream, s.consumed, Consumed(s.codec, s.receiver, s.stream.At(p)));
  }

  lemma FollowsOn(s: Stream, consumed: seq<Wire>, ws: seq<Wire>)
    requires Follows(s, consumed) && s.start + |consumed| + |ws| <= s.End()
    requires var n := s.start + |consumed|;
      forall i {:trigger ws[i]} :: 0 <= i < |ws| ==> n + i < s.End() && ws[i] == s.At(n + i)
    ensures Follows(s, consumed + ws)
  {
    hide Stream.At;
    var long := consumed + ws;
    forall i | 0 <= i < |long|
      ensures long[i] == s.At(s.start + i)
    {
      if i < |consumed| {
        assert long[i] == consumed[i];
      } else {
        assert long[i] == ws[i - |consumed|];
      }
    }
  }

  lemma ApplyKeeps(s: Channel, step: Step)
    ensures Apply(s, step).codec == s.codec && Apply(s, step).stream.start == s.stream.start
    ensures s.stream.End() <= Apply(s, step).stream.End() && s.Next() <= Apply(s, step).Next()
  {
  }

  /** Steps that do not reach the receiver. */
  lemma {:induction false} QuietConsistent(s: Channel, step: Step, horizon: nat)
    requires Consistent(s, horizon) && !step.Send?
    requires step.Arrive? ==> s.ended.Some? || step.p !in s.net
    ensures Consistent(Apply(s, step), horizon)
  {
    hide Lawful, Sendable, SplitAll, InSync, Stream.Valid, Stream.Before, Stream.At, Queued, Numbered, AfterAck,
         AckEvent, Follows, HandleUdp, Consumed, Forged;
    if step.Forge? { ForgeIs(s, step.w); }
  }

  /** In a consistent state the released commands are the first of those sent, in order, each once. */
  lemma {:induction false} ConsistentIsSafe(s: Channel)
    requires Prefixed(s)
    ensures Contents(s.released) <= Contents(s.commands)
    ensures s.Next() == s.stream.End() ==> Contents(s.released) == Contents(s.commands)
  {
    StreamRoundTrip(s.codec, s.commands);
    PrefixReleased(s.codec, s.stream, s.Next());
    ContentsOfPrefix(s.released, Assemble(s.codec, NOTHING, s.stream.packets).released);
  }

  lemma PrefixReleased(codec: Codec, s: Stream, n: nat)
    requires s.start <= n <= s.End()
    ensures s.Before(codec, n).released <= Assemble(codec, NOTHING, s.packets).released
    ensures n == s.End() ==> s.Before(codec, n) == Assemble(codec, NOTHING, s.packets)
  {
    var k := n - s.start;
    assert s.packets == s.packets[..k] + s.packets[k..];
    AssembleConcat(codec, NOTHING, s.packets[..k], s.packets[k..]);
    AssembleExtends(codec, s.Before(codec, n), s.packets[k..]);
    if n == s.End() { assert s.packets[..k] == s.packets; }
  }

  lemma ContentsOfPrefix(a: seq<Packet>, b: seq<Packet>)
    requires a <= b
    ensures Contents(a) <= Contents(b)
  {
    assert Contents(a) == Contents(b)[..|a|];
  }
}
