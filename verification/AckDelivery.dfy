/**
 * How everything gets through: which retransmissions are acked, when acks still reach the sender, and
 * exactly when a sender can get everything acked without a packet or an ack from before.
 */
module AckDelivery {
  import opened Prelude
  import opened PacketIds
  import opened AckNumbers
  import opened Fragmentation
  import opened CommandCodec
  import opened Resender
  import opened CommandChannel
  import opened CommandSafety
  import opened CommandAcks

  // ---------------------------------------------------------------- acks that are read

  /** In all runs both sides count acks alike. */
  lemma {:induction false} RunCounted(s: Channel, steps: seq<Step>)
    requires s.acks.Counted()
    ensures Run(s, steps).acks.Counted() && s.acks.Number() <= Run(s, steps).acks.Number()
    decreases |steps|
  {
    hide Apply, Acks.Counted;
    if steps != [] {
      RunCounted(s, steps[..|steps| - 1]);
      StepCounted(Run(s, steps[..|steps| - 1]), steps[|steps| - 1]);
    }
  }

  lemma {:induction false} StepCounted(s: Channel, step: Step)
    requires s.acks.Counted()
    ensures Apply(s, step).acks.Counted() && s.acks.Number() <= Apply(s, step).acks.Number()
  {
    hide HandleUdp, Consumed, AfterAck, AckEvent;
    if step.Forge? { ForgeIs(s, step.w); }
    if step.AckArrives? && IsRead(s, step.k) {
      ReadingKeeps(s.acks, s.acks.first + step.k);
    }
  }

  /**
   * For every run: the ack that is sent next can be read if and only if fewer than 32767 acks were sent
   * from the expected one on, and it is not one of those that a client ignores.
   */
  lemma {:induction false} NextAckIsReadIff(codec: Codec, start: nat, acks: Acks, steps: seq<Step>)
    requires acks.Counted() && Run(Initial(codec, start, acks), steps).acks.WithinRounds()
    ensures var a := Run(Initial(codec, start, acks), steps).acks;
      a.Reads(a.Number()) <==> a.InReach() && !a.Ignores(a.Number())
  {
    hide Run;
    RunCounted(Initial(codec, start, acks), steps);
    NextIsReadIff(Run(Initial(codec, start, acks), steps).acks);
  }

  lemma NextIsReadIff(a: Acks)
    requires a.Counted() && a.WithinRounds()
    ensures a.Reads(a.Number()) <==> a.InReach() && !a.Ignores(a.Number())
  {
    ReadsAheadIff(a, a.Number());
  }

  /** Of the acks only those arrive that are sent from now on; m were sent before. */
  function NewAcks(m: nat): (Channel, Step) -> bool {
    (s: Channel, step: Step) => step.AckArrives? ==> m <= step.k
  }

  /** Nothing is heard any more. */
  ghost predicate Silent(was: Channel, s: Channel) {
    && s.acks.heard == was.acks.heard && s.acks.next == was.acks.next && s.announced == was.announced
    && s.acks.first == was.acks.first && s.acks.ignoresOne == was.acks.ignoresOne
    && forall p: nat {:trigger p in s.pending} :: p in was.pending ==> p in s.pending
  }

  /**
   * Once no ack is in reach, none is ever read again, unless one arrives that was sent before. Nothing
   * leaves the send queue, and nothing is announced.
   */
  lemma {:induction false} NothingHeardAgain(s: Channel, more: seq<Step>)
    requires s.acks.Counted() && !s.acks.CanHear()
    requires Always(s, more, NewAcks(|s.acks.sent|))
    requires Run(s, more).acks.Number() <= s.acks.heard + FULL_RANGE - 32769
    ensures Silent(s, Run(s, more))
    decreases |more|
  {
    hide Apply, Always, Acks.Counted, Acks.CanHear;
    if more != [] {
      var front := more[..|more| - 1];
      AlwaysFront(s, more, NewAcks(|s.acks.sent|));
      RunCounted(s, front);
      StepCounted(Run(s, front), more[|more| - 1]);
      NothingHeardAgain(s, front);
      StepSilent(s, Run(s, front), more[|more| - 1]);
    }
  }

  lemma {:induction false} StepSilent(was: Channel, s: Channel, step: Step)
    requires Silent(was, s) && s.acks.Counted() && !was.acks.CanHear()
    requires NewAcks(|was.acks.sent|)(s, step) && s.acks.Number() <= was.acks.heard + FULL_RANGE - 32769
    ensures Silent(was, Apply(s, step))
  {
    hide HandleUdp, Consumed, AfterAck, AckEvent, EnqueueAll, Acks.Reads;
    match step
    case Send(command) =>
      EnqueueAllMembers(s.pending, Keys(s.stream.End(), Split(s.codec, Outgoing(command))));
    case AckArrives(k) =>
      if k < |s.acks.sent| { ReadsAheadIff(s.acks, s.acks.first + k); }
    case Forge(w) => ForgeIs(s, w);
    case _ =>
  }

  // ---------------------------------------------------------------- one retransmission

  /** The lowest pending id is not ahead of the receiver. */
  lemma {:induction false} LowestPending(s: Channel)
    requires AckInvariant(s) && s.pending != []
    ensures s.pending[0] <= s.Next() && s.pending[0] in s.pending && s.stream.start <= s.pending[0] < s.stream.End()
  {
    NextInRange(s);
    if s.Next() < s.stream.End() {
      assert s.Next() in s.pending || Got(s, s.Next());
    }
  }

  /** Nothing is received 200 positions ahead. */
  lemma {:induction false} FarNotGot(s: Channel)
    requires FirstIds(s)
    ensures forall q: nat {:trigger Got(s, q)} :: s.Next() + MAX_QUEUE_LEN <= q ==> !Got(s, q)
  {
    forall q: nat | s.Next() + MAX_QUEUE_LEN <= q
      ensures !Got(s, q)
    {
      FarIsNotGot(s.codec, s.stream, s.stream.start + ID_RANGE, s.Next(), s.receiver, s.released, q);
    }
  }

  /** The lowest pending packet is sent again, and arrives. */
  function Resent(s: Channel): Channel
    requires s.pending != []
  {
    Apply(Apply(s, Transmit(s.pending[0])), Arrive(s.pending[0]))
  }

  /** It is acked unless it is too far behind. */
  lemma {:induction false} ResentIs(s: Channel)
    requires AckInvariant(s) && s.ended.None? && s.pending != []
    ensures var p, s' := s.pending[0], Resent(s);
      && AckInvariant(s') && s'.ended.None? && s'.pending == s.pending
      && s'.commands == s.commands && s'.codec == s.codec && s'.stream == s.stream
      && p < LAST_ID && s'.acks == (if s.Next() - 32769 <= p then s.acks.Sending(p) else s.acks)
      && (s'.Next() == s.Next() || s.Next() <= s'.Next() <= p + MAX_QUEUE_LEN)
  {
    hide AckInvariant, Apply, FirstIds, Got;
    var p := s.pending[0];
    LowestPending(s);
    TransmitFirstIdsOf(s, p);
    StepKeeps(s, Transmit(p));
    var s1 := Apply(s, Transmit(p));
    assert s1.net == s.net + {p};
    NearProper(s, s1, p);
    ArriveFirstIdsOf(s1, p);
    StepKeeps(s1, Arrive(p));
    var s2 := Apply(s1, Arrive(p));
    if s.Next() < s2.Next() {
      NextInRangeOf(s1);
      NextAfter(s1, s2, p);
    }
  }

  lemma NearProper(s: Channel, s1: Channel, p: nat)
    requires p <= s1.Next()
    ensures Proper(s, Transmit(p)) && Proper(s1, Arrive(p)) && NearArrival(s, Transmit(p)) && NearArrival(s1, Arrive(p))
  {
  }

  lemma {:induction false} TransmitFirstIdsOf(s: Channel, p: nat)
    requires AckInvariant(s)
    ensures TransmitIs(s, Apply(s, Transmit(p)), p) && s.stream.End() <= LAST_ID
    ensures Proper(s, Transmit(p)) && NearArrival(s, Transmit(p))
  {
    hide FirstIds, Got;
    TransmitFirstIds(s, p);
    NextInRange(s);
    EndOfFirstIds(s);
  }

  lemma {:induction false} NextInRangeOf(s: Channel)
    requires AckInvariant(s)
    ensures !Got(s, s.Next()) && forall q: nat {:trigger Got(s, q)} :: s.Next() + MAX_QUEUE_LEN <= q ==> !Got(s, q)
  {
    hide FirstIds, Got;
    NextInRange(s);
    FarNotGot(s);
  }

  lemma PendingIncreases(s: Channel)
    requires AckInvariant(s)
    ensures Increasing(s.pending)
  {
  }

  lemma EndOfFirstIds(s: Channel)
    requires FirstIds(s)
    ensures s.stream.End() <= LAST_ID
  {
  }

  lemma {:induction false} ArriveFirstIdsOf(s: Channel, p: nat)
    requires AckInvariant(s) && s.ended.None? && p in s.net
    ensures s.stream.start <= p < s.stream.End() <= LAST_ID && ArriveIs(s, Apply(s, Arrive(p)), p)
  {
    hide FirstIds, Got;
    ArriveFirstIds(s, p);
  }

  /** The receiver moves on over what it has kept, which is less than 200 positions. */
  lemma {:induction false} NextAfter(s: Channel, s': Channel, p: nat)
    requires p < ID_RANGE && ArriveIs(s, s', p) && s.Next() < s'.Next() && !Got(s, s.Next())
    requires forall q: nat {:trigger Got(s, q)} :: s.Next() + MAX_QUEUE_LEN <= q ==> !Got(s, q)
    ensures p == s.Next() && s'.Next() <= s.Next() + MAX_QUEUE_LEN
  {
    hide Got;
    PassedIsGot(s', s.Next());
    PassedIsGot(s', s'.Next() - 1);
  }

  lemma PassedIsGot(s: Channel, q: nat)
    requires q < s.Next()
    ensures Got(s, q)
  {
  }

  /** The ack for the lowest pending id, if it is read. */
  lemma {:induction false} LowestAcked(s: Channel, k: nat)
    requires AckInvariant(s) && s.pending != [] && k < |s.acks.sent| && s.acks.sent[k] == s.pending[0]
    ensures var s' := Apply(s, AckArrives(k));
      if IsRead(s, k) then AckInvariant(s') && s'.pending == s.pending[1..]
          && s'.acks == s.acks.Reading(s.acks.first + k)
        && s'.ended == s.ended && s'.commands == s.commands && s'.codec == s.codec && s'.stream == s.stream
        && s'.consumed == s.consumed
      else s' == s
  {
    hide AckEvent, FirstIds, AcksGot, Accounted;
    if IsRead(s, k) {
      EndOfInvariant(s);
      OfUnique(s.pending[0], 0, s.pending[0]);
      assert Proper(s, AckArrives(k)) && NearArrival(s, AckArrives(k));
      StepKeeps(s, AckArrives(k));
    }
  }

  lemma {:induction false} EndOfInvariant(s: Channel)
    requires AckInvariant(s)
    ensures s.stream.End() <= LAST_ID && forall i {:trigger s.pending[i]} ::
            0 <= i < |s.pending| ==> s.pending[i] < LAST_ID
  {
  }

  /** The lowest pending packet is sent again, arrives, and its ack arrives. */
  function Retransmitted(s: Channel): Channel
    requires s.pending != []
  {
    Apply(Resent(s), AckArrives(|s.acks.sent|))
  }

  /**
   * While the connection lives, one retransmission of the lowest pending packet gets it acked if and only
   * if it is at most 32769 positions behind, and the next ack is in reach and not ignored.
   */
  lemma {:induction false} RetransmissionHealsIff(s: Channel)
    requires AckInvariant(s) && s.ended.None? && s.pending != [] && s.acks.WithinRounds()
    ensures var s' := Retransmitted(s);
      AckInvariant(s') && s'.ended.None? && s'.commands == s.commands
      && if s.Next() - 32769 <= s.pending[0] && s.acks.InReach() && !s.acks.Ignores(s.acks.Number())
         then s'.pending == s.pending[1..] && s'.acks.heard == s'.acks.Number()
         else s'.pending == s.pending
  {
    hide AckInvariant, Resent, FirstIds, Acks.Reads, Acks.Counted;
    var k, s1 := |s.acks.sent|, Resent(s);
    ResentIs(s);
    CountedOf(s);
    NextIsReadIff(s.acks);
    if s.Next() - 32769 <= s.pending[0] {
      SameReading(s.acks, s.pending[0]);
      LowestAcked(s1, k);
    }
  }

  lemma CountedOf(s: Channel)
    requires AckInvariant(s)
    ensures s.acks.Counted()
  {
  }

  lemma SameReading(a: Acks, id: u16)
    ensures forall f: nat {:trigger a.Reads(f)} :: a.Sending(id).Reads(f) == a.Reads(f)
  {
  }

  // ---------------------------------------------------------------- everything gets through

  /** Nothing new is sent or forged, and of what is pending only the lowest packet is sent. */
  predicate Modest(s: Channel, step: Step) {
    !step.Send? && !step.Forge? && (step.Transmit? ==> s.pending != [] && step.p == s.pending[0])
  }

  /** A way on from s without anything that m acks before it could tell. */
  ghost predicate Way(s: Channel, steps: seq<Step>, m: nat) {
    Always(s, steps, Modest) && Always(s, steps, NewAcks(m))
  }

  /** The lowest pending packet is not too far behind, and its ack can be read. */
  ghost predicate Hopeful(s: Channel) {
    AckInvariant(s) && s.ended.None?
    && (s.pending != [] ==> s.acks.CanHear() && s.Next() - 32769 <= s.pending[0])
  }

  lemma {:induction false} ResentWay(s: Channel)
    requires s.pending != []
    ensures var p := s.pending[0]; var steps := [Transmit(p), Arrive(p)];
      Run(s, steps) == Resent(s) && Way(s, steps, |s.acks.sent|)
  {
    var p := s.pending[0];
    RunOfTwo(s, Transmit(p), Arrive(p));
    AlwaysTwo(s, Transmit(p), Arrive(p), Modest);
    AlwaysTwo(s, Transmit(p), Arrive(p), NewAcks(|s.acks.sent|));
  }

  lemma {:induction false} RetransmittedWay(s: Channel)
    requires s.pending != []
    ensures var p := s.pending[0]; var steps := [Transmit(p), Arrive(p), AckArrives(|s.acks.sent|)];
      Run(s, steps) == Retransmitted(s) && Way(s, steps, |s.acks.sent|)
  {
    hide Apply;
    var p, k := s.pending[0], |s.acks.sent|;
    RunOfThree(s, Transmit(p), Arrive(p), AckArrives(k));
    AlwaysThree(s, Transmit(p), Arrive(p), AckArrives(k), Modest);
    AlwaysThree(s, Transmit(p), Arrive(p), AckArrives(k), NewAcks(k));
  }

  lemma {:induction false} WayOn(s: Channel, a: seq<Step>, b: seq<Step>, m: nat, k: nat)
    requires Way(s, a, m) && Way(Run(s, a), b, k) && m <= k
    ensures Way(s, a + b, m) && Run(s, a + b) == Run(Run(s, a), b)
  {
    hide Run;
    RunConcat(s, a, b);
    AlwaysConcat(s, a, b, Modest);
    AlwaysWeaker(Run(s, a), b, NewAcks(k), NewAcks(m));
    AlwaysConcat(s, a, b, NewAcks(m));
  }

  /** The lowest pending packet gets acked, if need be with a second ack. */
  lemma {:induction false} LowestGetsThrough(s: Channel) returns (steps: seq<Step>)
    requires Hopeful(s) && s.pending != []
    ensures var s' := Run(s, steps);
      && Hopeful(s') && s'.pending == s.pending[1..] && s'.commands == s.commands
      && Way(s, steps, |s.acks.sent|) && |s.acks.sent| <= |s'.acks.sent|
      && s'.acks.first == s.acks.first && s'.acks.Number() <= s.acks.Number() + 2
  {
    hide AckInvariant, Resent, Retransmitted, Run, Way;
    var p := s.pending[0];
    CountedOf(s);
    ResentIs(s);
    PendingIncreases(s);
    if s.acks.Ignores(s.acks.Number()) {
      var s1 := Resent(s);
      ResentWay(s);
      HealNow(s1);
      RetransmittedWay(s1);
      steps := [Transmit(p), Arrive(p)] + [Transmit(p), Arrive(p), AckArrives(|s1.acks.sent|)];
      WayOn(s, [Transmit(p), Arrive(p)], [Transmit(p), Arrive(p), AckArrives(|s1.acks.sent|)], |s.acks.sent|,
          |s1.acks.sent|);
    } else {
      HealNow(s);
      RetransmittedWay(s);
      steps := [Transmit(p), Arrive(p), AckArrives(|s.acks.sent|)];
    }
  }

  lemma {:induction false} HealNow(s: Channel)
    requires AckInvariant(s) && s.ended.None? && s.pending != [] && s.Next() - 32769 <= s.pending[0]
    requires s.acks.InReach() && !s.acks.Ignores(s.acks.Number())
    ensures var s' := Retransmitted(s);
      && Hopeful(s') && s'.pending == s.pending[1..] && s'.commands == s.commands
      && s'.acks.first == s.acks.first && |s'.acks.sent| == |s.acks.sent| + 1
  {
    hide AckInvariant, Resent, Apply;
    CountedOf(s);
    ResentIs(s);
    RetransmissionHealsIff(s);
    PendingIncreases(s);
    AckArrivesKeeps(Resent(s), |s.acks.sent|);
  }

  lemma AckArrivesKeeps(s: Channel, k: nat)
    ensures var s' := Apply(s, AckArrives(k));
      s'.Next() == s.Next() && s'.acks.sent == s.acks.sent && s'.acks.first == s.acks.first
  {
  }

  lemma {:induction false} AllGetThrough(s: Channel) returns (steps: seq<Step>)
    requires Hopeful(s)
    ensures var s' := Run(s, steps);
      && Hopeful(s') && s'.pending == [] && s'.commands == s.commands && Way(s, steps, |s.acks.sent|)
      && s'.acks.Number() <= s.acks.Number() + 2 * |s.pending|
    decreases |s.pending|
  {
    hide AckInvariant, Apply, Hopeful, Way;
    if s.pending == [] {
      steps := [];
      NoWay(s);
    } else {
      steps := LowestGetsThrough(s);
      var s1 := Run(s, steps);
      var rest := AllGetThrough(s1);
      WayOn(s, steps, rest, |s.acks.sent|, |s1.acks.sent|);
      steps := steps + rest;
    }
  }

  lemma NoWay(s: Channel)
    ensures Way(s, [], |s.acks.sent|)
  {
  }

  /** When nothing is pending, everything was released. */
  lemma {:induction false} AllConsumed(s: Channel)
    requires AckInvariant(s) && s.pending == []
    ensures Contents(s.released) == Contents(s.commands)
  {
    NextInRange(s);
    assert s.Next() < s.stream.End() ==> s.Next() in s.pending || Got(s, s.Next());
    ConsistentIsSafe(s);
  }

  /**
   * While the connection lives, the lowest pending packet is at most 32769 positions behind and acks can be
   * read, there is a way on after which everything sent is released and acked: only lowest packets are
   * sent again, and no ack from before arrives.
   */
  lemma {:induction false} EverythingGetsThrough(s: Channel) returns (steps: seq<Step>)
    requires Hopeful(s)
    ensures var s' := Run(s, steps);
      && s'.commands == s.commands && s'.ended.None? && s'.pending == []
      && Contents(s'.released) == Contents(s.commands) && Way(s, steps, |s.acks.sent|)
  {
    hide AckInvariant, Run, Contents, Way;
    steps := AllGetThrough(s);
    AllConsumed(Run(s, steps));
  }

  // ---------------------------------------------------------------- and when it does not

  /** Any proper way on, with any packets, but without acks from before. */
  ghost predicate Continues(s: Channel, more: seq<Step>) {
    && Always(s, more, Proper) && Always(s, more, NewAcks(|s.acks.sent|))
    && Run(s, more).stream.End() <= LAST_ID
    && Run(s, more).acks.Number() <= s.acks.heard + FULL_RANGE - 32769
  }

  /** Position p is out of reach, and was not acked since. */
  ghost predicate Stuck(s: Channel, p: nat, m: nat) {
    FirstIds(s) && p in s.pending && p < s.Next() - 32769
    && forall k {:trigger s.acks.sent[k]} :: m <= k < |s.acks.sent| ==> s.acks.sent[k] != p
  }

  lemma {:induction false} StepStuck(s: Channel, p: nat, m: nat, step: Step)
    requires Stuck(s, p, m) && Proper(s, step) && NewAcks(m)(s, step)
    requires Apply(s, step).stream.End() <= LAST_ID
    ensures Stuck(Apply(s, step), p, m)
  {
    hide FirstIds, Proper, Apply, Got, AckEvent, AfterAck;
    StepFirstIds(s, step);
    match step
    case Send(command) =>
      SendFirstIds(s, command);
      PrefixMembers(s.pending, Apply(s, step).pending, p);
    case Transmit(q) => TransmitFirstIds(s, q);
    case Arrive(q) =>
      if q in s.net && s.ended.None? { ArriveFirstIds(s, q); } else { IdleSteps(s, step); }
    case AckArrives(k) =>
      if IsRead(s, k) { AckFirstIds(s, k); } else { IdleSteps(s, step); }
    case Forge(w) => ForgeFirstIds(s, w);
  }

  lemma PrefixMembers(a: seq<nat>, b: seq<nat>, p: nat)
    requires a <= b && p in a
    ensures p in b
  {
  }

  lemma {:induction false} RunStuck(s: Channel, p: nat, more: seq<Step>)
    requires Stuck(s, p, |s.acks.sent|) && Always(s, more, Proper) && Always(s, more, NewAcks(|s.acks.sent|))
    requires Run(s, more).stream.End() <= LAST_ID
    ensures Stuck(Run(s, more), p, |s.acks.sent|)
    decreases |more|
  {
    hide Stuck, Apply, Always, Proper;
    if more != [] {
      var front := more[..|more| - 1];
      AlwaysFront(s, more, Proper);
      AlwaysFront(s, more, NewAcks(|s.acks.sent|));
      ApplyKeeps(Run(s, front), more[|more| - 1]);
      RunStuck(s, p, front);
      StepStuck(Run(s, front), p, |s.acks.sent|, more[|more| - 1]);
    }
  }

  /**
   * Exactly when everything can still be acked without an ack from before, whatever else is sent, lost,
   * doubled or reordered.
   */
  lemma {:induction false} GetsThroughIff(s: Channel)
    requires AckInvariant(s) && s.ended.None? && s.pending != []
    ensures (exists more {:trigger Continues(s, more)} :: Continues(s, more) && Run(s, more).pending == [])
       <==> s.acks.CanHear() && s.Next() - 32769 <= s.pending[0]
  {
    hide AckInvariant, Run, Continues, Way;
    if s.acks.CanHear() && s.Next() - 32769 <= s.pending[0] {
      var steps := AllGetThrough(s);
      CountedOf(s);
      WayContinues(s, steps);
    } else {
      forall more | Continues(s, more)
        ensures Run(s, more).pending != []
      {
        SomethingStays(s, more);
      }
    }
  }

  lemma {:induction false} WayContinues(s: Channel, steps: seq<Step>)
    requires AckInvariant(s) && Hopeful(Run(s, steps)) && Way(s, steps, |s.acks.sent|)
    requires s.acks.CanHear()
    requires Run(s, steps).acks.Number() <= s.acks.Number() + 2 * |s.pending|
    ensures Continues(s, steps)
  {
    hide Run, AcksGot, Accounted, Consistent;
    AlwaysWeaker(s, steps, Modest, Proper);
    FewPending(s.pending, LAST_ID);
  }

  lemma {:induction false} FewPending(ids: seq<nat>, end: nat)
    requires Increasing(ids) && forall i {:trigger ids[i]} :: 0 <= i < |ids| ==> ids[i] < end
    ensures |ids| <= end
    decreases |ids|
  {
    if ids != [] {
      var k := |ids| - 1;
      FewPending(ids[..k], ids[k]);
    }
  }

  lemma {:induction false} SomethingStays(s: Channel, more: seq<Step>)
    requires AckInvariant(s) && s.pending != [] && Continues(s, more)
    requires !s.acks.CanHear() || s.pending[0] < s.Next() - 32769
    ensures s.pending[0] in Run(s, more).pending
  {
    hide Run, AcksGot, Accounted, Consistent, Acks.CanHear;
    if !s.acks.CanHear() {
      NothingHeardAgain(s, more);
    } else {
      RunStuck(s, s.pending[0], more);
    }
  }
}
