/**
 * What ends a connection: a packet that is 200 or more positions ahead counts as an overflow of the
 * receive queue, which is a fatal error.
 */
module CommandEnd {
  import opened Prelude
  import opened PacketIds
  import opened Fragmentation
  import opened CommandCodec
  import opened CommandChannel
  import opened DoubledPackets
  import opened CommandSafety
  import opened AckNumbers

  /** A packet arrives that is 200 to 32766 positions ahead of the expected one. */
  predicate TooEarly(s: Channel, step: Step) {
    step.Arrive? && s.ended.None? && step.p in s.net && s.stream.start <= step.p < s.stream.End()
    && MAX_QUEUE_LEN <= (step.p - s.Next()) % FULL_RANGE < WINDOW
  }

  /** Some step of a run is of this kind. */
  ghost predicate Ever(s: Channel, steps: seq<Step>, ok: (Channel, Step) -> bool) {
    exists k {:trigger Run(s, steps[..k])} :: 0 <= k < |steps| && ok(Run(s, steps[..k]), steps[k])
  }

  lemma EverFront(s: Channel, steps: seq<Step>, ok: (Channel, Step) -> bool)
    requires steps != []
    ensures var front := steps[..|steps| - 1];
      Ever(s, steps, ok) <==> Ever(s, front, ok) || ok(Run(s, front), steps[|steps| - 1])
  {
    hide Run;
    var front := steps[..|steps| - 1];
    if Ever(s, steps, ok) {
      var k :| 0 <= k < |steps| && ok(Run(s, steps[..k]), steps[k]);
      if k < |front| { assert front[..k] == steps[..k] && front[k] == steps[k]; }
    }
    if Ever(s, front, ok) {
      var k :| 0 <= k < |front| && ok(Run(s, front[..k]), front[k]);
      assert steps[..k] == front[..k] && steps[k] == front[k];
    }
  }

  /** What was sent is well-formed, and while it lives the receiver expects the next position. */
  ghost predicate Counted(s: Channel) {
    Sane(s) && (s.ended.None? ==> s.receiver.next == Of(s.Next()))
  }

  lemma {:induction false} StepCounted(s: Channel, step: Step)
    requires Counted(s) && Proper(s, step)
    ensures Counted(Apply(s, step))
    ensures s.ended.None? ==> (Apply(s, step).ended == Some(CommandQueueFull) <==> TooEarly(s, step))
  {
    hide HandleUdp, Consumed, Sane, Apply;
    match step
    case Send(command) =>
      SendSane(s, command);
      QuietIs(s, step);
    case Arrive(p) =>
      if s.ended.None? && p in s.net {
        InRange(s, p);
        ArrivedIs(s, p);
        NextCounted(s.codec, s.receiver, s.stream.At(p), s.Next());
        EndLimited(s);
        SaneArrival(s, p);
        TooEarlyIff(s, p);
      } else {
        QuietIs(s, step);
        QuietSane(s, step);
      }
    case _ =>
      QuietIs(s, step);
      QuietSane(s, step);
  }

  lemma {:induction false} QuietIs(s: Channel, step: Step)
    requires step.Arrive? ==> s.ended.Some? || step.p !in s.net
    ensures var s' := Apply(s, step);
      s'.receiver == s.receiver && s'.consumed == s.consumed && s'.ended == s.ended && s'.stream.start == s.stream.start
  {
    hide HandleUdp, Consumed;
    if step.Forge? { ForgeIs(s, step.w); }
  }

  lemma {:induction false} QuietSane(s: Channel, step: Step)
    requires Sane(s) && !step.Send? && (step.Arrive? ==> s.ended.Some? || step.p !in s.net)
    ensures Sane(Apply(s, step))
  {
    hide Lawful, Sendable, SplitAll, Stream.Valid, Numbered, HandleUdp, Consumed;
    if step.Forge? { ForgeIs(s, step.w); }
  }

  lemma {:induction false} SaneArrival(s: Channel, p: nat)
    requires Sane(s)
    ensures Sane(Apply(s, Arrive(p)))
  {
    hide Lawful, Sendable, SplitAll, Stream.Valid, HandleUdp, Consumed;
  }

  lemma {:induction false} SendSane(s: Channel, command: Packet)
    requires Sane(s) && Proper(s, Send(command))
    ensures Sane(Apply(s, Send(command)))
  {
    hide Split, SplitAll, Sendable, Deliverable, Assemble, Outgoing, Lawful, EnqueueAll;
    OutgoingKeeps(command);
    OneMoreCommand(s.codec, s.commands, Outgoing(command));
    SplitEncrypted(s.codec, Outgoing(command));
  }

  /** The receiver counts what it goes through. */
  lemma {:induction false} NextCounted(codec: Codec, r: Receiver, w: Wire, n: nat)
    requires r.next == Of(n)
    ensures var re := HandleUdp(codec, r, w);
      re.error.None? || !re.error.value.Fatal() ==> re.receiver.next == Of(n + |Consumed(codec, r, w)|)
  {
    hide Taken, Of, Drain;
    DrainErrors(codec, r, w, []);
    if Drain(codec, r, w, []).1.Released? {
      DrainAdvances(codec, r, w, []);
      AheadOfPosition(n, |Taken(r.queue, w).0|);
    }
  }

  lemma {:induction false} TooEarlyIff(s: Channel, p: nat)
    requires Sane(s) && s.ended.None? && s.receiver.next == Of(s.Next()) && p in s.net
             && s.stream.start <= p < s.stream.End()
    ensures TooEarly(s, Arrive(p)) <==> HandleUdp(s.codec, s.receiver, s.stream.At(p)).error == Some(CommandQueueFull)
  {
    hide HandleUdp, Lawful, Sendable, SplitAll, Stream.Valid;
    var w := s.stream.At(p);
    NotUnencrypted(s.codec, s.stream, p);
    AtIsGenuine(s.stream, p);
    OfFull(s.Next());
    QueueFullIff(s.codec, s.receiver, w);
    SameDistance(p, s.Next());
  }

  lemma SameDistance(p: int, n: int)
    ensures (p - n % FULL_RANGE) % FULL_RANGE == (p - n) % FULL_RANGE
  {
    var k := n / FULL_RANGE;
    assert p - n % FULL_RANGE == p - n + k * FULL_RANGE;
    OfUnique48(p - n + k * FULL_RANGE, (p - n) / FULL_RANGE + k, (p - n) % FULL_RANGE);
  }

  /** The queue of a receiver overflows, in any run, if and only if a packet arrives too early. */
  lemma {:induction false} QueueFullEndsIff(codec: Codec, start: nat, acks: Acks, steps: seq<Step>)
    requires Lawful(codec) && start <= STREAM_LIMIT && Always(Initial(codec, start, acks), steps, Proper)
    ensures Counted(Run(Initial(codec, start, acks), steps))
    ensures Run(Initial(codec, start, acks), steps).ended == Some(CommandQueueFull)
            <==> Ever(Initial(codec, start, acks), steps, TooEarly)
    decreases |steps|
  {
    hide Counted, Apply, Proper, Always, TooEarly, Ever;
    var s0 := Initial(codec, start, acks);
    if steps == [] {
      InitialCounted(codec, start, acks);
    } else {
      var front, step := steps[..|steps| - 1], steps[|steps| - 1];
      var s := Run(s0, front);
      AlwaysFront(s0, steps, Proper);
      EverFront(s0, steps, TooEarly);
      QueueFullEndsIff(codec, start, acks, front);
      StepCounted(s, step);
      EndedStays(s, step);
      NeverTwice(s, step);
    }
  }

  lemma InitialCounted(codec: Codec, start: nat, acks: Acks)
    requires Lawful(codec) && start <= STREAM_LIMIT
    ensures Counted(Initial(codec, start, acks)) && !Ever(Initial(codec, start, acks), [], TooEarly)
  {
  }

  lemma NeverTwice(s: Channel, step: Step)
    ensures s.ended.Some? ==> !TooEarly(s, step)
  {
  }

  /** The same distance without wrap-around. */
  predicate FarAhead(s: Channel, step: Step) {
    step.Arrive? && s.ended.None? && step.p in s.net && s.stream.start <= step.p < s.stream.End()
    && s.Next() + MAX_QUEUE_LEN <= step.p < s.Next() + WINDOW
  }

  lemma PlainDistance(n: nat, p: nat)
    requires n <= STREAM_LIMIT && p <= STREAM_LIMIT
    ensures MAX_QUEUE_LEN <= (p - n) % FULL_RANGE < WINDOW <==> n + MAX_QUEUE_LEN <= p < n + WINDOW
  {
    if p < n {
      OfUnique48(p - n, -1, p - n + FULL_RANGE);
    } else {
      OfUnique48(p - n, 0, p - n);
    }
  }

  lemma {:induction false} FarAheadInStep(s: Channel, step: Step)
    requires Prefixed(s)
    ensures FarAhead(s, step) <==> TooEarly(s, step)
  {
    hide Prefixed;
    NextWithinEnd(s);
    if step.Arrive? && s.stream.start <= step.p < s.stream.End() {
      PlainDistance(s.Next(), step.p);
    }
  }

  /**
   * While a run is safe nothing else ends the connection: it ends if and only if some packet
   * arrives that is 200 to 32766 positions ahead of the expected one.
   */
  lemma {:induction false} ConnectionEndsIff(codec: Codec, start: nat, acks: Acks, steps: seq<Step>)
    requires Lawful(codec) && start <= STREAM_LIMIT && Always(Initial(codec, start, acks), steps, Proper)
    requires EndsWithinRound(codec, start, acks, steps)
    ensures Run(Initial(codec, start, acks), steps).ended.Some? <==> Ever(Initial(codec, start, acks), steps, FarAhead)
    decreases |steps|
  {
    hide Good, Apply, Proper, Always, FarAhead, TooEarly, Ever, Doubled;
    var s0 := Initial(codec, start, acks);
    RunWithinEnd(codec, start, acks, steps);
    QueueFullEndsIff(codec, start, acks, steps);
    if steps == [] {
      NothingYet(s0);
    } else {
      var front, step := steps[..|steps| - 1], steps[|steps| - 1];
      AlwaysFront(s0, steps, Proper);
      ApplyKeeps(Run(s0, front), step);
      assert Doubles(s0, front) <= Doubles(s0, steps);
      ConnectionEndsIff(codec, start, acks, front);
      RunWithinEnd(codec, start, acks, front);
      QueueFullEndsIff(codec, start, acks, front);
      GoodIsPrefixed(Run(s0, front), Doubles(s0, front));
      FarAheadInStep(Run(s0, front), step);
      EverFront(s0, steps, FarAhead);
      EverFront(s0, steps, TooEarly);
    }
  }

  lemma NothingYet(s: Channel)
    ensures !Ever(s, [], FarAhead)
  {
  }
}
