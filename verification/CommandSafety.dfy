/**
 * Which runs of the command channel are safe. The receive queue does not look for duplicates, so
 * a run stays in step exactly as long as the receiver has not got a whole round of ids past a
 * packet that was doubled.
 */
module CommandSafety {
  import opened Prelude
  import opened PacketIds
  import opened Fragmentation
  import opened CommandCodec
  import opened CommandChannel
  import opened DoubledPackets
  import opened AckNumbers

  // ---------------------------------------------------------------- doubled packets

  /** A packet arrives that is waiting already. */
  predicate Doubled(s: Channel, step: Step) {
    step.Arrive? && s.ended.None? && step.p in s.net && s.stream.start <= step.p < s.stream.End()
    && s.Next() < step.p && s.stream.At(step.p) in s.receiver.queue
  }

  /** The positions that were doubled in a run. */
  function Doubles(s: Channel, steps: seq<Step>): set<nat>
    decreases |steps|
  {
    if steps == [] then {}
    else
      var front, step := steps[..|steps| - 1], steps[|steps| - 1];
      Doubles(s, front) + (if Doubled(Run(s, front), step) then {step.p} else {})
  }

  /** A run that is in step, with the positions that were doubled in it. */
  ghost predicate Good(s: Channel, ps: set<nat>) {
    Consistent(s, s.Next())
    && (s.ended.None? ==> Tracked(s.stream, s.Next(), s.receiver.queue, ps))
  }

  lemma {:induction false} SendKeepsGood(s: Channel, command: Packet, ps: set<nat>)
    requires Good(s, ps) && Proper(s, Send(command))
    ensures Good(Apply(s, Send(command)), ps)
  {
    hide Consistent, Tracked, Proper, Split, EnqueueAll, Keys, Stream.At;
    var s' := Apply(s, Send(command));
    SendConsistent(s, command, s.Next());
    if s.ended.None? {
      SaneOf(s', s.Next());
      EndLimited(s');
      TrackedLonger(s.stream, s'.stream.packets, s.Next(), s.receiver.queue, ps);
    }
  }

  lemma {:induction false} SaneOf(s: Channel, horizon: nat)
    requires Consistent(s, horizon)
    ensures Sane(s) && Prefixed(s) && s.stream.Valid(s.codec)
    ensures s.ended.None? ==> InSync(s.codec, s.stream, horizon, s.Next(), s.receiver, s.released)
    ensures s.ended.None? ==> !Queued(multiset(s.receiver.queue), s.Next())
  {
  }

  lemma {:induction false} QuietKeepsGood(s: Channel, step: Step, ps: set<nat>)
    requires Good(s, ps) && !step.Send? && (step.Arrive? ==> s.ended.Some? || step.p !in s.net)
    ensures Good(Apply(s, step), ps)
  {
    hide Consistent, Tracked;
    QuietConsistent(s, step, s.Next());
  }

  /** The state after a packet was handled. */
  lemma {:induction false} ArrivedIs(s: Channel, p: nat)
    requires s.ended.None? && p in s.net && s.stream.start <= p < s.stream.End()
    ensures var s', w := Apply(s, Arrive(p)), s.stream.At(p);
      var re := HandleUdp(s.codec, s.receiver, w);
      && s'.codec == s.codec && s'.stream == s.stream && s'.commands == s.commands && s'.net == s.net
      && s'.receiver == re.receiver && s'.consumed == s.consumed + Consumed(s.codec, s.receiver, w)
      && s'.released == s.released + re.released && s'.pending == s.pending && s'.announced == s.announced
      && s'.acks == (if re.ack.Some? then s.acks.Sending(re.ack.value) else s.acks)
      && s'.ended == (if re.error.Some? && re.error.value.Fatal() then re.error else None)
  {
    hide HandleUdp, Consumed, Stream.At;
  }

  /** A packet that is not in order. */
  lemma {:induction false} EarlyKeepsGood(s: Channel, p: nat, ps: set<nat>)
    requires Good(s, ps) && s.ended.None? && p in s.net && p != s.Next()
    ensures Good(Apply(s, Arrive(p)), ps + (if Doubled(s, Arrive(p)) then {p} else {}))
    ensures Apply(s, Arrive(p)).Next() == s.Next()
  {
    hide Consistent, Tracked, Consumed, HandleUdp, Stream.At, Queued, Apply, Sane, Prefixed, Stream.Valid, InSync;
    var n := s.Next();
    SaneOf(s, n);
    var n', re := ArriveConsistent(s, p, n);
    ArrivedIs(s, p);
    NothingConsumed(s.codec, s.stream, n, n, s.receiver, s.released, p);
    if n < p < n + MAX_QUEUE_LEN {
      EarlyReaction(s.codec, s.stream, n, n, s.receiver, s.released, p);
      EarlyKeepsTrack(s.stream, n, s.receiver.queue, ps, p);
    } else {
      StrayReaction(s.codec, s.stream, n, n, s.receiver, s.released, p);
      FarIsNotWaiting(s.stream, n, s.receiver.queue, p, ps);
      assert !Doubled(s, Arrive(p)) && ps + {} == ps;
    }
  }

  lemma FarIsNotWaiting(s: Stream, n: nat, queue: seq<Wire>, p: nat, ps: set<nat>)
    requires Tracked(s, n, queue, ps) && s.start <= p < s.End()
    ensures n + MAX_QUEUE_LEN <= p ==> s.At(p) !in queue
  {
    AtIsGenuine(s, p);
    assert s.At(p) in queue ==> s.At(p) in multiset(queue);
    assert s.At(p) in multiset(queue) ==> Waits(s, n, n, s.At(p));
  }

  /** Of a packet in order, the loop is all that can fail. */
  lemma {:induction false} InOrderResult(codec: Codec, s: Stream, n: nat, r: Receiver)
    requires s.Valid(codec) && s.start <= n < s.End() && r.next == Of(n)
    ensures var re, ws := HandleUdp(codec, r, s.At(n)), Consumed(codec, r, s.At(n));
      if re.error.None? then (ws, re.receiver.queue) == Taken(r.queue, s.At(n))
      else ws == [] && re.released == [] && re.error.value.Fatal() && !re.error.value.CommandQueueFull?
  {
    hide Drain, Taken;
    NearPositionsAreRecovered(n, n);
    DrainNeverFillsQueue(codec, r, s.At(n), []);
    DrainErrors(codec, r, s.At(n), []);
    if Drain(codec, r, s.At(n), []).1.Released? {
      DrainAdvances(codec, r, s.At(n), []);
      Advanced(r.queue, s.At(n));
    }
  }

  lemma Advanced(queue: seq<Wire>, w: Wire)
    ensures Taken(queue, w) == (Taken(queue, w).0, Taken(queue, w).1)
  {
  }

  lemma {:induction false} DrainErrors(codec: Codec, r: Receiver, w: Wire, out: seq<Packet>)
    ensures Drain(codec, r, w, out).1.Failed? ==> Drain(codec, r, w, out).1.error.Fatal()
    decreases |r.queue|
  {
    var a := Absorb(codec, r.pending, w.packet);
    if a.Absorbed? {
      match Extract(r.queue, (w.id + 1) % ID_RANGE)
      case None =>
      case Some((w', q)) =>
        DrainErrors(codec, Receiver(r.next.Plus(1), q, a.pending), w',
                    if a.released.Some? then out + [a.released.value] else out);
    }
  }

  /** Up to n' the receiver fits the stream, if no doubled packet is a round behind. */
  lemma {:induction false} ConsistentUpTo(s: Channel, ps: set<nat>, n': nat)
    requires Good(s, ps) && s.ended.None? && WithinRound(n', ps)
    ensures Consistent(s, n')
  {
    hide Prefixed, Strays, Copies, Queued;
    QueueUpTo(s.stream, s.Next(), n', multiset(s.receiver.queue), ps);
  }

  /** A packet in order, before a round is over. */
  lemma {:induction false} InOrderKeepsGood(s: Channel, ps: set<nat>)
    requires Good(s, ps) && s.ended.None? && s.Next() in s.net
    requires WithinRound(Apply(s, Arrive(s.Next())).Next(), ps)
    ensures Good(Apply(s, Arrive(s.Next())), ps)
  {
    hide Consistent, Tracked, Consumed, HandleUdp, Stream.At, Queued, QueueFrom, Apply, Sane, Prefixed, Stream.Valid,
         InSync, Taken;
    var n := s.Next();
    SaneOf(s, n);
    InRange(s, n);
    ArrivedIs(s, n);
    NextIsOf(s, n);
    InOrderResult(s.codec, s.stream, n, s.receiver);
    var re := HandleUdp(s.codec, s.receiver, s.stream.At(n));
    if re.error.None? {
      var h := n + |Taken(s.receiver.queue, s.stream.At(n)).0|;
      ConsistentUpTo(s, ps, h);
      var n', _ := ArriveConsistent(s, n, h);
      QueueOf(Apply(s, Arrive(n)));
      LoopKeepsTrack(s.stream, n, s.receiver.queue, ps, h, Apply(s, Arrive(n)).receiver.queue);
    } else {
      FailedIsGood(s, Apply(s, Arrive(n)));
    }
  }

  lemma {:induction false} InRange(s: Channel, p: nat)
    requires Sane(s) && p in s.net
    ensures s.stream.start <= p < s.stream.End()
  {
  }

  lemma {:induction false} NextIsOf(s: Channel, horizon: nat)
    requires Consistent(s, horizon) && s.ended.None?
    ensures s.receiver.next == Of(s.Next())
  {
  }

  lemma {:induction false} LoopKeepsTrack(s: Stream, n: nat, queue: seq<Wire>, ps: set<nat>, h: nat, rest: seq<Wire>)
    requires Tracked(s, n, queue, ps) && n < s.End() && WithinRound(h, ps) && h == n + |Taken(queue, s.At(n)).0|
    requires rest == Taken(queue, s.At(n)).1 && h <= s.End()
    requires QueueFrom(s, h, h, multiset(rest)) && !Queued(multiset(rest), h)
    ensures Tracked(s, h, rest, ps)
  {
    hide Taken, Strays, Copies, Queued, Stream.At, QueueFrom;
    AtIsGenuine(s, n);
    LoopKeepsStrays(s, n, queue, s.At(n), ps);
    LoopKeepsCopies(s, n, queue, s.At(n), ps);
  }

  lemma {:induction false} QueueOf(s: Channel)
    requires Consistent(s, s.Next()) && s.ended.None?
    ensures QueueFrom(s.stream, s.Next(), s.Next(), multiset(s.receiver.queue)) && s.Next() <= s.stream.End()
    ensures !Queued(multiset(s.receiver.queue), s.Next())
  {
    hide QueueFrom, Queued, Prefixed, Stream.Before;
  }

  /** After a fatal error of reassembly, what was consumed and released stays. */
  lemma {:induction false} FailedIsGood(s: Channel, s': Channel)
    requires Prefixed(s) && s'.codec == s.codec && s'.stream == s.stream && s'.commands == s.commands && s'.net == s.net
    requires s'.consumed == s.consumed + [] && s'.released == s.released + []
    requires s'.ended.Some? && !s'.ended.value.CommandQueueFull?
    ensures Consistent(s', s'.Next())
  {
    hide Lawful, Sendable, SplitAll, Stream.Valid, Stream.Before, Follows;
    assert s.consumed + [] == s.consumed && s.released + [] == s.released;
  }

  lemma {:induction false} StepKeepsGood(s: Channel, step: Step, ps: set<nat>)
    requires Good(s, ps) && Proper(s, step) && WithinRound(Apply(s, step).Next(), ps)
    ensures Good(Apply(s, step), ps + (if Doubled(s, step) then {step.p} else {}))
  {
    hide Good, Apply, Proper;
    if step.Arrive? && s.ended.None? && step.p in s.net {
      if step.p == s.Next() {
        InOrderKeepsGood(s, ps);
        assert ps + {} == ps;
      } else {
        EarlyKeepsGood(s, step.p, ps);
      }
    } else {
      assert ps + {} == ps;
      match step
      case Send(command) => SendKeepsGood(s, command, ps);
      case _ => QuietKeepsGood(s, step, ps);
    }
  }

  // ---------------------------------------------------------------- a round is over

  /** Nothing but a packet in order makes the receiver expect another position. */
  lemma {:induction false} OnlyInOrderAdvances(s: Channel, step: Step, ps: set<nat>)
    requires Good(s, ps) && Apply(s, step).Next() != s.Next()
    ensures step == Arrive(s.Next()) && s.ended.None? && s.Next() in s.net
  {
    hide Good, Tracked, Consistent;
    if step.Arrive? && s.ended.None? && step.p in s.net && step.p != s.Next() {
      EarlyKeepsGood(s, step.p, ps);
    }
  }

  lemma {:induction false} RoundOverBreaks(s: Channel, ps: set<nat>, p: nat)
    requires Good(s, ps) && s.ended.None? && s.Next() in s.net && p in ps
    requires s.Next() < p + ID_RANGE <= Apply(s, Arrive(s.Next())).Next()
    ensures !InStep(Apply(s, Arrive(s.Next())))
  {
    hide Consistent, Tracked, Consumed, HandleUdp, Stream.At, Apply, Sane, Prefixed, Stream.Valid, InSync, Taken;
    var n := s.Next();
    var s' := Apply(s, Arrive(n));
    SaneOf(s, n);
    InRange(s, n);
    ArrivedIs(s, n);
    NextIsOf(s, n);
    InOrderResult(s.codec, s.stream, n, s.receiver);
    var i := LoopTakesCopy(s.stream, n, s.receiver.queue, ps, p);
    assert s'.consumed[|s.consumed| + i] == Taken(s.receiver.queue, s.stream.At(n)).0[i];
  }

  /** Once out of step, always out of step. */
  lemma {:induction false} StaysOutOfStep(s: Channel, step: Step)
    requires !InStep(s)
    ensures !InStep(Apply(s, step))
  {
    hide HandleUdp, Consumed, Stream.At;
    var i :| 0 <= i < |s.consumed| && s.consumed[i].Position() != s.stream.start + i;
    assert Apply(s, step).consumed[i] == s.consumed[i];
  }

  // ---------------------------------------------------------------- whole runs

  /** As long as no round is over, a run is good. */
  lemma {:induction false} RunIsGood(codec: Codec, start: nat, acks: Acks, steps: seq<Step>)
    requires Lawful(codec) && start <= STREAM_LIMIT && Always(Initial(codec, start, acks), steps, Proper)
    requires WithinRound(Run(Initial(codec, start, acks), steps).Next(), Doubles(Initial(codec, start, acks), steps))
    ensures Good(Run(Initial(codec, start, acks), steps), Doubles(Initial(codec, start, acks), steps))
    decreases |steps|
  {
    hide Good, Apply, Proper, Always, Doubled;
    var s0 := Initial(codec, start, acks);
    if steps == [] {
      InitialGood(codec, start, acks);
    } else {
      var front, step := steps[..|steps| - 1], steps[|steps| - 1];
      AlwaysFront(s0, steps, Proper);
      ApplyKeeps(Run(s0, front), step);
      assert Doubles(s0, front) <= Doubles(s0, steps);
      RunIsGood(codec, start, acks, front);
      StepKeepsGood(Run(s0, front), step, Doubles(s0, front));
    }
  }

  lemma InitialGood(codec: Codec, start: nat, acks: Acks)
    requires Lawful(codec) && start <= STREAM_LIMIT
    ensures Good(Initial(codec, start, acks), {})
  {
    InitialConsistent(codec, start, acks, start);
  }

  /** Once a round is over, a run is out of step. */
  lemma {:induction false} RunBreaks(codec: Codec, start: nat, acks: Acks, steps: seq<Step>)
    requires Lawful(codec) && start <= STREAM_LIMIT && Always(Initial(codec, start, acks), steps, Proper)
    requires !WithinRound(Run(Initial(codec, start, acks), steps).Next(), Doubles(Initial(codec, start, acks), steps))
    ensures !InStep(Run(Initial(codec, start, acks), steps))
    decreases |steps|
  {
    hide Good, Apply, Proper, Always, InStep;
    var s0 := Initial(codec, start, acks);
    if steps != [] {
      var front, step := steps[..|steps| - 1], steps[|steps| - 1];
      var s, ps := Run(s0, front), Doubles(s0, front);
      AlwaysFront(s0, steps, Proper);
      if WithinRound(s.Next(), ps) {
        RunIsGood(codec, start, acks, front);
        var p :| p in Doubles(s0, steps) && Apply(s, step).Next() >= p + ID_RANGE;
        if Apply(s, step).Next() != s.Next() {
          OnlyInOrderAdvances(s, step, ps);
        }
        assert p in ps;
        RoundOverBreaks(s, ps, p);
      } else {
        RunBreaks(codec, start, acks, front);
        StaysOutOfStep(s, step);
      }
    }
  }

  /**
   * The exact boundary of safety, for all runs: the receiver goes through the positions of the
   * stream one after the other, each once, if and only if it never gets a whole round of ids past
   * a packet that arrived again while it was waiting.
   */
  lemma {:induction false} StaysInStepIff(codec: Codec, start: nat, acks: Acks, steps: seq<Step>)
    requires Lawful(codec) && start <= STREAM_LIMIT && Always(Initial(codec, start, acks), steps, Proper)
    ensures var s := Run(Initial(codec, start, acks), steps);
      InStep(s) <==> forall p {:trigger p in Doubles(Initial(codec, start, acks), steps)} ::
        p in Doubles(Initial(codec, start, acks), steps) ==> s.Next() < p + ID_RANGE
  {
    hide Good, InStep, Run, Doubles, Always;
    var s, ps := Run(Initial(codec, start, acks), steps), Doubles(Initial(codec, start, acks), steps);
    if WithinRound(s.Next(), ps) {
      RunIsGood(codec, start, acks, steps);
      GoodIsPrefixed(s, ps);
      PrefixedIsInStep(s);
    } else {
      RunBreaks(codec, start, acks, steps);
    }
  }

  lemma {:induction false} GoodIsPrefixed(s: Channel, ps: set<nat>)
    requires Good(s, ps)
    ensures Prefixed(s)
  {
  }

  /** As long as a run is in step, what is released is a prefix of what was sent. */
  lemma {:induction false} SafetyInStep(codec: Codec, start: nat, acks: Acks, steps: seq<Step>)
    requires Lawful(codec) && start <= STREAM_LIMIT && Always(Initial(codec, start, acks), steps, Proper)
    requires InStep(Run(Initial(codec, start, acks), steps))
    ensures var s := Run(Initial(codec, start, acks), steps); Contents(s.released) <= Contents(s.commands)
  {
    hide Good, InStep, Run, Doubles, Always, Contents;
    StaysInStepIff(codec, start, acks, steps);
    RunIsGood(codec, start, acks, steps);
    GoodIsPrefixed(Run(Initial(codec, start, acks), steps), Doubles(Initial(codec, start, acks), steps));
    ConsistentIsSafe(Run(Initial(codec, start, acks), steps));
  }

  // ---------------------------------------------------------------- conditions that can be told beforehand

  /** If the stream ends within a round from every doubled packet, no round can be over. */
  ghost predicate EndsWithinRound(codec: Codec, start: nat, acks: Acks, steps: seq<Step>) {
    WithinRound(Run(Initial(codec, start, acks), steps).stream.End(), Doubles(Initial(codec, start, acks), steps))
  }

  lemma {:induction false} StepWithinEnd(s: Channel, step: Step, ps: set<nat>)
    requires Good(s, ps) && Proper(s, step)
    requires WithinRound(s.stream.End(), ps + (if Doubled(s, step) then {step.p} else {}))
    ensures Apply(s, step).Next() <= Apply(s, step).stream.End()
    ensures s.ended.None? && Apply(s, step).ended.Some? ==> Apply(s, step).ended.value.CommandQueueFull?
  {
    hide Consistent, Tracked, Prefixed, Sane, InSync, HandleUdp, Consumed, Stream.At, Apply, Stream.Valid, Doubled,
         Taken;
    SaneOf(s, s.Next());
    NextWithinEnd(s);
    if step.Arrive? && s.ended.None? && step.p in s.net {
      var p, end := step.p, s.stream.End();
      InRange(s, p);
      ConsistentUpTo(s, ps, end);
      if s.Next() < p { WaitingIsDoubled(s, p, ps); }
      var n', re := ArriveConsistent(s, p, end);
      SaneOf(Apply(s, step), end);
      NextWithinEnd(Apply(s, step));
      ArrivedIs(s, p);
      NextIsOf(s, end);
      FatalIsQueueFull(s.codec, s.stream, end, s.receiver, s.Next(), p, n', re, s.released);
    } else {
      QuietGrows(s, step);
    }
  }

  lemma {:induction false} NextWithinEnd(s: Channel)
    requires Prefixed(s)
    ensures s.Next() <= s.stream.End() <= STREAM_LIMIT
  {
  }

  lemma {:induction false} WaitingIsDoubled(s: Channel, p: nat, ps: set<nat>)
    requires Good(s, ps) && s.ended.None? && p in s.net && s.stream.start <= p < s.stream.End() && s.Next() < p
    ensures Queued(multiset(s.receiver.queue), p) ==> Doubled(s, Arrive(p))
  {
    hide Consistent, Strays, Copies, Stream.At;
    if Queued(multiset(s.receiver.queue), p) {
      var w :| w in multiset(s.receiver.queue) && w.Position() == p;
      assert Waits(s.stream, s.Next(), s.Next(), w);
      AtIsGenuine(s.stream, p);
      SamePosition(s.stream, w, s.stream.At(p));
    }
  }

  lemma NotUnencrypted(codec: Codec, s: Stream, p: nat)
    requires s.Valid(codec) && s.start <= p < s.End()
    ensures !s.At(p).packet.flags.unencrypted && s.End() <= STREAM_LIMIT
  {
  }

  lemma FatalIsQueueFull(
    codec: Codec, s: Stream, horizon: nat, r: Receiver, n: nat, p: nat, n': nat, re: Reaction, released: seq<Packet>)
    requires s.Valid(codec) && s.start <= p < s.End() && n <= s.End() && r.next == Of(n)
             && re == HandleUdp(codec, r, s.At(p))
    requires GoodReaction(codec, s, horizon, n, r, released, p, n', re)
    ensures re.error.Some? && re.error.value.Fatal() ==> re.error.value.CommandQueueFull?
  {
    hide HandleUdp, InSync, Received, Queued, Stream.Valid;
    OfFull(n);
    NotUnencrypted(codec, s, p);
    AtIsGenuine(s, p);
    QueueFullIff(codec, r, s.At(p));
  }

  lemma {:induction false} QuietGrows(s: Channel, step: Step)
    requires step.Arrive? ==> s.ended.Some? || step.p !in s.net
    ensures Apply(s, step).Next() == s.Next() && s.stream.End() <= Apply(s, step).stream.End()
    ensures Apply(s, step).ended == s.ended
  {
  }

  /** Then the run is good, and only a packet that is too early can end the connection. */
  lemma {:induction false} RunWithinEnd(codec: Codec, start: nat, acks: Acks, steps: seq<Step>)
    requires Lawful(codec) && start <= STREAM_LIMIT && Always(Initial(codec, start, acks), steps, Proper)
    requires EndsWithinRound(codec, start, acks, steps)
    ensures Good(Run(Initial(codec, start, acks), steps), Doubles(Initial(codec, start, acks), steps))
    ensures var s := Run(Initial(codec, start, acks), steps); s.ended.Some? ==> s.ended.value.CommandQueueFull?
    decreases |steps|
  {
    hide Good, Apply, Proper, Always, Doubled;
    var s0 := Initial(codec, start, acks);
    if steps == [] {
      InitialGood(codec, start, acks);
    } else {
      var front, step := steps[..|steps| - 1], steps[|steps| - 1];
      var s := Run(s0, front);
      AlwaysFront(s0, steps, Proper);
      ApplyKeeps(s, step);
      assert Doubles(s0, front) <= Doubles(s0, steps);
      RunWithinEnd(codec, start, acks, front);
      StepWithinEnd(s, step, Doubles(s0, front));
      StepKeepsGood(s, step, Doubles(s0, front));
      EndedStays(s, step);
    }
  }

  lemma {:induction false} EndedStays(s: Channel, step: Step)
    ensures s.ended.Some? ==> Apply(s, step).ended == s.ended
  {
  }

  /** End-to-end safety, if the stream ends less than a round after every doubled packet. */
  lemma {:induction false} SafetyWithinRound(codec: Codec, start: nat, acks: Acks, steps: seq<Step>)
    requires Lawful(codec) && start <= STREAM_LIMIT && Always(Initial(codec, start, acks), steps, Proper)
    requires EndsWithinRound(codec, start, acks, steps)
    ensures var s := Run(Initial(codec, start, acks), steps); InStep(s) && Contents(s.released) <= Contents(s.commands)
  {
    hide Good, InStep, Run, Doubles, Always, Contents;
    RunWithinEnd(codec, start, acks, steps);
    GoodIsPrefixed(Run(Initial(codec, start, acks), steps), Doubles(Initial(codec, start, acks), steps));
    PrefixedIsInStep(Run(Initial(codec, start, acks), steps));
    ConsistentIsSafe(Run(Initial(codec, start, acks), steps));
  }

  lemma {:induction false} NoDoubles(s: Channel, steps: seq<Step>)
    requires Always(s, steps, NotWaiting)
    ensures Doubles(s, steps) == {}
    decreases |steps|
  {
    hide Apply, Always;
    if steps != [] {
      AlwaysFront(s, steps, NotWaiting);
      NoDoubles(s, steps[..|steps| - 1]);
      WaitingHasId(Run(s, steps[..|steps| - 1]), steps[|steps| - 1]);
    }
  }

  lemma WaitingHasId(s: Channel, step: Step)
    requires NotWaiting(s, step)
    ensures !Doubled(s, step)
  {
    if step.Arrive? && s.stream.start <= step.p < s.stream.End() {
      ExtractCorrect(s.receiver.queue, step.p % ID_RANGE);
      var w := s.stream.At(step.p);
      assert w in s.receiver.queue ==> w in multiset(s.receiver.queue);
    }
  }

  /** End-to-end safety for runs of any length, if no packet arrives whose id is waiting already. */
  lemma {:induction false} SafetyWithoutWaitingDuplicates(codec: Codec, start: nat, acks: Acks, steps: seq<Step>)
    requires Lawful(codec) && start <= STREAM_LIMIT && Always(Initial(codec, start, acks), steps, Proper)
    requires Always(Initial(codec, start, acks), steps, NotWaiting)
    ensures var s := Run(Initial(codec, start, acks), steps); InStep(s) && Contents(s.released) <= Contents(s.commands)
  {
    NoDoubles(Initial(codec, start, acks), steps);
    SafetyWithinRound(codec, start, acks, steps);
  }

  lemma {:induction false} DoublesAreLater(s: Channel, steps: seq<Step>, p: nat)
    requires p in Doubles(s, steps)
    ensures s.stream.start < p
    decreases |steps|
  {
    hide Apply;
    if steps != [] {
      var front := steps[..|steps| - 1];
      StartKept(s, front);
      if p in Doubles(s, front) { DoublesAreLater(s, front, p); }
    }
  }

  lemma {:induction false} StartKept(s: Channel, steps: seq<Step>)
    ensures Run(s, steps).stream.start == s.stream.start && Run(s, steps).codec == s.codec
    decreases |steps|
  {
    hide Apply;
    if steps != [] {
      StartKept(s, steps[..|steps| - 1]);
      ApplyKeeps(Run(s, steps[..|steps| - 1]), steps[|steps| - 1]);
    }
  }

  /** End-to-end safety against arbitrary duplication, for the first 65536 packets of a stream. */
  lemma {:induction false} SafetyOfFirstIds(codec: Codec, start: nat, acks: Acks, steps: seq<Step>)
    requires Lawful(codec) && start <= STREAM_LIMIT && Always(Initial(codec, start, acks), steps, Proper)
    requires |Run(Initial(codec, start, acks), steps).stream.packets| <= ID_RANGE
    ensures EndsWithinRound(codec, start, acks, steps)
    ensures var s := Run(Initial(codec, start, acks), steps); InStep(s) && Contents(s.released) <= Contents(s.commands)
  {
    hide Run, Doubles, Always, InStep, Contents;
    var s0 := Initial(codec, start, acks);
    StartKept(s0, steps);
    forall p | p in Doubles(s0, steps)
      ensures Run(s0, steps).stream.End() < p + ID_RANGE
    {
      DoublesAreLater(s0, steps, p);
    }
    SafetyWithinRound(codec, start, acks, steps);
  }

  /**
   * The receive queue over runs without doubled packets: all ids in it are less than 200 ahead of
   * the expected one, which is not among them, no packet is there twice, and it holds at most 199.
   */
  lemma {:induction false} QueueOverRuns(codec: Codec, start: nat, acks: Acks, steps: seq<Step>)
    requires Lawful(codec) && start <= STREAM_LIMIT && Always(Initial(codec, start, acks), steps, Proper)
    requires Always(Initial(codec, start, acks), steps, NotWaiting)
             && Run(Initial(codec, start, acks), steps).ended.None?
    ensures var r := Run(Initial(codec, start, acks), steps).receiver;
      && |r.queue| < MAX_QUEUE_LEN
      && forall i {:trigger r.queue[i]} :: 0 <= i < |r.queue| ==>
           0 < WrappingSub16(r.queue[i].id, r.next.id) < MAX_QUEUE_LEN
  {
    hide Run, Doubles, Always, WrappingSub16;
    var s0 := Initial(codec, start, acks);
    var s := Run(s0, steps);
    NoDoubles(s0, steps);
    RunWithinEnd(codec, start, acks, steps);
    QueueIsExact(s);
    forall i | 0 <= i < |s.receiver.queue|
      ensures 0 < WrappingSub16(s.receiver.queue[i].id, s.receiver.next.id) < MAX_QUEUE_LEN
    {
      assert s.receiver.queue[i] in multiset(s.receiver.queue);
      IdsAhead(s.Next(), s.receiver.queue[i]);
    }
  }

  lemma {:induction false} QueueIsExact(s: Channel)
    requires Good(s, {}) && s.ended.None?
    ensures |s.receiver.queue| < MAX_QUEUE_LEN && s.receiver.next == Of(s.Next())
    ensures forall w {:trigger multiset(s.receiver.queue)[w]} :: w in multiset(s.receiver.queue) ==>
              s.Next() < w.Position() < s.Next() + MAX_QUEUE_LEN
  {
    hide Consistent, Copies;
    var queue := multiset(s.receiver.queue);
    NextIsOf(s, s.Next());
    forall w: Wire | w in queue
      ensures s.stream.Genuine(w) && s.Next() < w.Position() < s.Next() + MAX_QUEUE_LEN && queue[w] == 1
    {
      assert Waits(s.stream, s.Next(), s.Next(), w);
    }
    BagBound(s.stream, s.Next(), queue, MAX_QUEUE_LEN - 1);
    assert |queue| == |s.receiver.queue|;
  }

  lemma IdsAhead(n: nat, w: Wire)
    requires n < w.Position() < n + MAX_QUEUE_LEN
    ensures 0 < WrappingSub16(w.id, Of(n).id) < MAX_QUEUE_LEN
  {
    var p, r := w.Position(), n % ID_RANGE;
    OfUnique(p, w.generation, w.id);
    if r + (p - n) < ID_RANGE {
      OfUnique(p, n / ID_RANGE, r + (p - n));
    } else {
      OfUnique(p, n / ID_RANGE + 1, r + (p - n) - ID_RANGE);
    }
  }
}
