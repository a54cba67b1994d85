/**
 * How far ahead a sender may be. The program limits the number of packets in the heap; what this means for
 * positions, and which limits keep acks sound and the connection alive.
 */
module SendWindow {
  import opened Prelude
  import opened PacketIds
  import opened AckNumbers
  import opened Fragmentation
  import opened CommandCodec
  import opened Resender
  import opened CommandChannel
  import opened CommandSafety
  import opened CommandAcks
  import opened AckDelivery

  // ---------------------------------------------------------------- a limit on the heap

  /** The sender takes a packet from a heap that holds the w lowest pending ids. */
  function HeapLimit(w: nat): (Channel, Step) -> bool {
    (s: Channel, step: Step) => step.Transmit? && step.p in s.pending ==> AmongLowest(s.pending, step.p, w)
  }

  /** So many positions of an increasing list are below p. */
  lemma {:induction false} ManyBelow(ids: seq<nat>, a: nat, p: nat, i: nat, low: nat)
    requires Increasing(ids) && i < |ids| && ids[i] == p && a <= p && low in ids && low < a
    requires forall q: nat {:trigger q in ids} :: a <= q <= p ==> q in ids
    ensures p - a + 1 <= i
    decreases p
  {
    var below := if p == a then low else p - 1;
    assert below in ids;
    var j :| 0 <= j < |ids| && ids[j] == below;
    assert j < i;
    if a < p { ManyBelow(ids, a, p - 1, j, low); }
  }

  /** Of the ids from the expected one on at most 199 were received, so the heap does not reach further than this. */
  lemma {:induction false} LowestAreNear(s: Channel, p: nat, w: nat)
    requires AckInvariant(s) && p in s.pending && AmongLowest(s.pending, p, w)
    ensures p < s.Next() + w + MAX_QUEUE_LEN - 1
  {
    hide FirstIds, AcksGot, Got;
    NextInRangeOf(s);
    PendingIncreases(s);
    var i :| 0 <= i < w && i < |s.pending| && s.pending[i] == p;
    var n, end := s.Next(), s.Next() + MAX_QUEUE_LEN;
    if end <= p {
      PendingInStream(s, p);
      forall q: nat | end <= q <= p || q == n
        ensures q in s.pending
      {
        assert q in s.pending || Got(s, q);
      }
      ManyBelow(s.pending, end, p, i, n);
    }
  }

  lemma {:induction false} PendingInStream(s: Channel, p: nat)
    requires AckInvariant(s) && p in s.pending
    ensures s.stream.start <= p < s.stream.End() && s.stream.start <= s.Next()
  {
    NextInRange(s);
  }

  /** Forged packets with ids half a round ahead would be acked; see `AcksGotIff`. */
  predicate NearForgery(s: Channel, step: Step) {
    step.Forge? && s.ended.None? && Forged(s.receiver, step.w) ==> step.w.id < s.Next() + WINDOW
  }

  /** What such a sender has put on the network. */
  ghost predicate NetNear(s: Channel, w: nat) {
    forall p {:trigger p in s.net} :: p in s.net ==> p < s.Next() + w + MAX_QUEUE_LEN - 1
  }

  /** With at most 32568 packets in the heap acks are sound; with one, the connection never ends. */
  lemma {:induction false} HeapLimitedRuns(codec: Codec, start: nat, acks: Acks, steps: seq<Step>, w: nat)
    requires Lawful(codec) && start <= LAST_ID && acks.Fresh() && w <= WINDOW - MAX_QUEUE_LEN + 1
    requires Always(Initial(codec, start, acks), steps, Proper)
    requires Always(Initial(codec, start, acks), steps, HeapLimit(w))
    requires Always(Initial(codec, start, acks), steps, NearForgery)
    requires Run(Initial(codec, start, acks), steps).stream.End() <= LAST_ID
    ensures var s := Run(Initial(codec, start, acks), steps);
      AckInvariant(s) && NetNear(s, w) && (w <= 1 ==> s.ended.None?)
    decreases |steps|
  {
    hide AckInvariant, Apply, Proper, Always, NetNear;
    var s0 := Initial(codec, start, acks);
    if steps == [] {
      InitialInvariant(codec, start, acks);
      NothingOnNet(s0, w);
    } else {
      var front, step := steps[..|steps| - 1], steps[|steps| - 1];
      AlwaysFront(s0, steps, Proper);
      AlwaysFront(s0, steps, HeapLimit(w));
      AlwaysFront(s0, steps, NearForgery);
      ApplyKeeps(Run(s0, front), step);
      HeapLimitedRuns(codec, start, acks, front, w);
      StepNetNear(Run(s0, front), step, w);
      StepKeeps(Run(s0, front), step);
    }
  }

  lemma NothingOnNet(s: Channel, w: nat)
    requires s.net == {}
    ensures NetNear(s, w)
  {
  }

  lemma {:induction false} StepNetNear(s: Channel, step: Step, w: nat)
    requires AckInvariant(s) && NetNear(s, w) && w <= WINDOW - MAX_QUEUE_LEN + 1
    requires Proper(s, step) && HeapLimit(w)(s, step) && NearForgery(s, step) && Apply(s, step).stream.End() <= LAST_ID
    ensures NearArrival(s, step) && NetNear(Apply(s, step), w)
    ensures s.ended.None? && w <= 1 ==> Apply(s, step).ended.None?
  {
    hide AckInvariant, Proper, Apply, AmongLowest, Got;
    match step
    case Transmit(p) =>
      TransmitFirstIdsOf(s, p);
      if p in s.pending { LowestAreNear(s, p, w); }
    case Arrive(p) =>
      if p in s.net && s.ended.None? {
        ArriveFirstIdsOf(s, p);
      } else {
        IdleSteps(s, step);
      }
    case _ => QuietIs(s, step);
  }

  lemma {:induction false} QuietIs(s: Channel, step: Step)
    requires step.Send? || step.AckArrives? || step.Forge?
    ensures var s' := Apply(s, step); s'.net == s.net && s'.Next() == s.Next() && s'.ended == s.ended
    ensures step.Forge? ==> Apply(s, step).pending == s.pending
  {
    hide HandleUdp, Consumed;
    if step.Forge? { ForgeIs(s, step.w); }
  }

  // ---------------------------------------------------------------- a limit on positions

  /** The sender stays below its lowest pending id plus a limit. */
  function Limit(limit: nat): (Channel, Step) -> bool {
    (s: Channel, step: Step) => step.Transmit? && s.pending != [] ==> step.p < s.pending[0] + limit
  }

  /** What such a sender has put on the network. */
  ghost predicate Limited(s: Channel, limit: nat) {
    forall p {:trigger p in s.net} :: p in s.net ==>
      p < s.Next() + limit && (s.pending != [] ==> p < s.pending[0] + limit)
  }

  lemma {:induction false} StepLimited(s: Channel, step: Step, limit: nat)
    requires AckInvariant(s) && Limited(s, limit) && limit <= WINDOW
    requires Proper(s, step) && Limit(limit)(s, step) && NearForgery(s, step) && Apply(s, step).stream.End() <= LAST_ID
    ensures NearArrival(s, step) && Limited(Apply(s, step), limit)
    ensures s.ended.None? && limit <= MAX_QUEUE_LEN ==> Apply(s, step).ended.None?
  {
    hide AckInvariant, Proper, Apply, Got, AckEvent, AfterAck;
    match step
    case Send(command) =>
      SendFirstIdsOf(s, command);
      if s.pending != [] { assert Apply(s, step).pending[0] == s.pending[0]; }
      NewIsAhead(s, Apply(s, step), limit);
    case Transmit(p) =>
      TransmitFirstIdsOf(s, p);
      if p in s.pending { LowestPending(s); }
    case Arrive(p) =>
      if p in s.net && s.ended.None? { ArriveFirstIdsOf(s, p); } else { IdleSteps(s, step); }
    case AckArrives(k) =>
      if IsRead(s, k) { AckFirstIdsOf(s, k); } else { IdleSteps(s, step); }
    case Forge(w) => QuietIs(s, step);
  }

  lemma {:induction false} SendFirstIdsOf(s: Channel, command: Packet)
    requires AckInvariant(s) && Proper(s, Send(command)) && Apply(s, Send(command)).stream.End() <= LAST_ID
    ensures NewKeys(s, Apply(s, Send(command)))
  {
    hide FirstIds, Got;
    SendFirstIds(s, command);
  }

  lemma {:induction false} AckFirstIdsOf(s: Channel, k: nat)
    requires AckInvariant(s) && IsRead(s, k)
    ensures AckIs(s, Apply(s, AckArrives(k)), k)
  {
    hide FirstIds, Got;
    AckFirstIds(s, k);
  }

  /** Nothing on the network is new. */
  lemma {:induction false} NewIsAhead(s: Channel, s': Channel, limit: nat)
    requires AckInvariant(s) && Limited(s, limit) && NewKeys(s, s')
    ensures Limited(s', limit)
  {
    hide Got, AcksGot, Accounted;
    NetInStream(s);
  }

  lemma {:induction false} NetInStream(s: Channel)
    requires AckInvariant(s)
    ensures forall p {:trigger p in s.net} :: p in s.net ==> p < s.stream.End()
  {
  }

  /** Acks of such a sender are sound, and one that stays below 200 never ends the connection. */
  lemma {:induction false} LimitedRuns(codec: Codec, start: nat, acks: Acks, steps: seq<Step>, limit: nat)
    requires Lawful(codec) && start <= LAST_ID && acks.Fresh() && limit <= WINDOW
    requires Always(Initial(codec, start, acks), steps, Proper)
    requires Always(Initial(codec, start, acks), steps, Limit(limit))
    requires Always(Initial(codec, start, acks), steps, NearForgery)
    requires Run(Initial(codec, start, acks), steps).stream.End() <= LAST_ID
    ensures var s := Run(Initial(codec, start, acks), steps);
      AckInvariant(s) && Limited(s, limit) && (limit <= MAX_QUEUE_LEN ==> s.ended.None?)
    decreases |steps|
  {
    hide AckInvariant, Apply, Proper, Always, Limited, NearArrival;
    var s0 := Initial(codec, start, acks);
    if steps == [] {
      InitialInvariant(codec, start, acks);
      NothingLimited(s0, limit);
    } else {
      var front, step := steps[..|steps| - 1], steps[|steps| - 1];
      AlwaysFront(s0, steps, Proper);
      AlwaysFront(s0, steps, Limit(limit));
      AlwaysFront(s0, steps, NearForgery);
      ApplyKeeps(Run(s0, front), step);
      LimitedRuns(codec, start, acks, front, limit);
      StepLimited(Run(s0, front), step, limit);
      StepKeeps(Run(s0, front), step);
    }
  }

  lemma NothingLimited(s: Channel, limit: nat)
    requires s.net == {}
    ensures Limited(s, limit)
  {
  }

  /** The lowest packet of such a sender is never too far behind. */
  lemma {:induction false} LowestNear(s: Channel, limit: nat)
    requires AckInvariant(s) && Limited(s, limit) && limit <= WINDOW && s.pending != []
    ensures s.Next() <= s.pending[0] + limit
  {
    hide FirstIds, AcksGot;
    NetInStream(s);
    LowestPending(s);
    PendingInStream(s, s.pending[0]);
    if s.stream.start < s.Next() {
      assert Got(s, s.Next() - 1);
    }
  }

  // ---------------------------------------------------------------- acks in time

  /**
   * Acks arrive in the order in which they were sent, or not at all, and fewer than 32766 of them in a
   * row have not arrived when the next one is sent.
   */
  predicate AcksInTime(s: Channel, step: Step) {
    (step.AckArrives? && IsRead(s, step.k) ==> s.acks.heard <= s.acks.first + step.k)
    && (step.Arrive? || step.Forge? ==> s.acks.Number() - s.acks.heard < WINDOW - 2)
  }

  lemma {:induction false} TimelyRuns(s: Channel, steps: seq<Step>)
    requires s.acks.Counted() && s.acks.CanHear() && s.acks.Number() + 1 < s.acks.heard + WINDOW
    requires Always(s, steps, AcksInTime)
    ensures var a := Run(s, steps).acks; a.Counted() && a.CanHear() && a.Number() + 1 < a.heard + WINDOW
    decreases |steps|
  {
    hide Apply, Always;
    if steps != [] {
      var front := steps[..|steps| - 1];
      AlwaysFront(s, steps, AcksInTime);
      TimelyRuns(s, front);
      StepTimely(Run(s, front), steps[|steps| - 1]);
    }
  }

  lemma {:induction false} StepTimely(s: Channel, step: Step)
    requires s.acks.Counted() && s.acks.Number() + 1 < s.acks.heard + WINDOW && AcksInTime(s, step)
    ensures var a := Apply(s, step).acks; a.Counted() && a.Number() + 1 < a.heard + WINDOW
  {
    hide HandleUdp, Consumed, AfterAck, AckEvent, Acks.Reads;
    if step.Forge? { ForgeIs(s, step.w); }
    if step.AckArrives? && IsRead(s, step.k) {
      ReadingKeeps(s.acks, s.acks.first + step.k);
    }
  }

  /** A sender that stays below 200, and whose acks arrive in time, can always get everything through. */
  lemma {:induction false} SmallWindowGetsThrough(codec: Codec, start: nat, acks: Acks, steps: seq<Step>)
    returns (more: seq<Step>)
    requires Lawful(codec) && start <= LAST_ID && acks.Fresh() && acks.Number() + 1 < acks.heard + WINDOW
    requires Always(Initial(codec, start, acks), steps, Proper)
    requires Always(Initial(codec, start, acks), steps, Limit(MAX_QUEUE_LEN))
    requires Always(Initial(codec, start, acks), steps, NearForgery)
    requires Always(Initial(codec, start, acks), steps, AcksInTime)
    requires Run(Initial(codec, start, acks), steps).stream.End() <= LAST_ID
    ensures var was, s := Run(Initial(codec, start, acks), steps), Run(Initial(codec, start, acks), steps + more);
      && s.ended.None? && s.pending == [] && s.commands == was.commands
      && Contents(s.released) == Contents(s.commands) && Way(was, more, |was.acks.sent|)
  {
    hide AckInvariant, Apply, Always, Contents, Run, Way, Limited;
    var s := Run(Initial(codec, start, acks), steps);
    LimitedRuns(codec, start, acks, steps, MAX_QUEUE_LEN);
    TimelyRuns(Initial(codec, start, acks), steps);
    if s.pending != [] { LowestNear(s, MAX_QUEUE_LEN); }
    more := EverythingGetsThrough(s);
    RunConcat(Initial(codec, start, acks), steps, more);
  }

  /** If no ack is in reach, a limited sender stalls: what is beyond the limit never arrives. */
  lemma {:induction false} LimitedSenderStalls(
    codec: Codec, start: nat, acks: Acks, steps: seq<Step>, more: seq<Step>, limit: nat)
    requires Lawful(codec) && start <= LAST_ID && acks.Fresh() && limit <= WINDOW
    requires Always(Initial(codec, start, acks), steps + more, Proper)
    requires Always(Initial(codec, start, acks), steps + more, Limit(limit))
    requires Always(Initial(codec, start, acks), steps + more, NearForgery)
    requires Run(Initial(codec, start, acks), steps + more).stream.End() <= LAST_ID
    requires var s := Run(Initial(codec, start, acks), steps);
      && s.pending != [] && !s.acks.CanHear() && Always(s, more, NewAcks(|s.acks.sent|))
      && Run(Initial(codec, start, acks), steps + more).acks.Number() <= s.acks.heard + FULL_RANGE - 32769
    ensures var p, s' := Run(Initial(codec, start, acks), steps).pending[0],
            Run(Initial(codec, start, acks), steps + more);
      p in s'.pending && s'.Next() <= p + limit
  {
    hide AckInvariant, Apply, Always, Run, Limited, Acks.CanHear;
    var s0 := Initial(codec, start, acks);
    var s, s' := Run(s0, steps), Run(s0, steps + more);
    RunConcat(s0, steps, more);
    RunCounted(s0, steps);
    NothingHeardAgain(s, more);
    assert s.pending[0] in s.pending && s.pending[0] in s'.pending;
    LimitedRuns(codec, start, acks, steps + more, limit);
    LowestNear(s', limit);
    PendingIncreases(s');
  }

  // ---------------------------------------------------------------- after the end

  /** After the end nothing more is released, whatever is sent again. */
  lemma {:induction false} EndIsFinal(s: Channel, more: seq<Step>)
    requires s.ended.Some?
    ensures Run(s, more).ended == s.ended && Run(s, more).released == s.released
    decreases |more|
  {
    hide Apply;
    if more != [] {
      EndIsFinal(s, more[..|more| - 1]);
      EndedReleasesNothing(Run(s, more[..|more| - 1]), more[|more| - 1]);
    }
  }

  lemma {:induction false} EndedReleasesNothing(s: Channel, step: Step)
    requires s.ended.Some?
    ensures Apply(s, step).ended == s.ended && Apply(s, step).released == s.released
  {
  }
}
