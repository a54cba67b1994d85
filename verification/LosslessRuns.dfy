/**
 * A network that loses nothing and keeps the order, and a sender that sends positions for the first time in
 * their order, as the resender does: then the connection never ends, and whatever arrives is released at once.
 */
module LosslessRuns {
  import opened Prelude
  import opened PacketIds
  import opened AckNumbers
  import opened Fragmentation
  import opened CommandCodec
  import opened CommandChannel
  import opened DoubledPackets
  import opened CommandSafety
  import opened CommandEnd

  predicate Goes(s: Channel, p: nat) {
    s.stream.start <= p < s.stream.End() && KeyOf(s, p) in s.pending
  }

  /** What was put on the network, in this order; packets may be repeated. */
  function Sendings(s: Channel, steps: seq<Step>): (ps: seq<nat>)
    decreases |steps|
  {
    if steps == [] then []
    else
      var front, step := steps[..|steps| - 1], steps[|steps| - 1];
      Sendings(s, front) + if step.Transmit? && Goes(Run(s, front), step.p) then [step.p] else []
  }

  function Arrivals(steps: seq<Step>): (ps: seq<nat>)
    decreases |steps|
  {
    if steps == [] then []
    else
      var front, step := steps[..|steps| - 1], steps[|steps| - 1];
      Arrivals(front) + if step.Arrive? then [step.p] else []
  }

  /** Arrivals are sendings, each of them once and in their order. */
  ghost predicate KeepsOrder(s: Channel, steps: seq<Step>) {
    forall k {:trigger steps[k]} :: 0 <= k < |steps| && steps[k].Arrive? ==>
      && |Arrivals(steps[..k])| < |Sendings(s, steps[..k])|
      && Sendings(s, steps[..k])[|Arrivals(steps[..k])|] == steps[k].p
  }

  /** No position is sent before all lower ones were. */
  ghost predicate FirstInOrder(s: Channel, steps: seq<Step>) {
    forall k {:trigger steps[k]} :: 0 <= k < |steps| && steps[k].Transmit? && Goes(Run(s, steps[..k]), steps[k].p) ==>
      AllSent(s.stream.start, Sendings(s, steps[..k]), steps[k].p)
  }

  ghost predicate AllSent(start: nat, sent: seq<nat>, p: nat) {
    forall q: nat {:trigger q in sent} :: start <= q < p ==> q in sent
  }

  lemma KeepsOrderFront(s: Channel, steps: seq<Step>)
    requires steps != [] && KeepsOrder(s, steps) && FirstInOrder(s, steps)
    ensures var front, step := steps[..|steps| - 1], steps[|steps| - 1];
      && KeepsOrder(s, front) && FirstInOrder(s, front)
      && (step.Arrive? ==> |Arrivals(front)| < |Sendings(s, front)| && Sendings(s, front)[|Arrivals(front)|] == step.p)
      && (step.Transmit? && Goes(Run(s, front), step.p) ==> AllSent(s.stream.start, Sendings(s, front), step.p))
  {
    hide Run, Goes, AllSent;
    var front := steps[..|steps| - 1];
    assert forall k {:trigger front[k]} :: 0 <= k < |front| ==> front[k] == steps[k] && front[..k] == steps[..k];
  }

  /** What has arrived is behind the receiver, and the rest is on its way. */
  ghost predicate UpToDate(s: Channel, sent: seq<nat>, arrived: seq<nat>) {
    && Good(s, {}) && s.ended.None?
    && arrived <= sent && (forall p {:trigger p in sent} :: p in sent ==> p in s.net)
    && (forall i {:trigger sent[i]} :: 0 <= i < |sent| ==> AllSent(s.stream.start, sent[..i], sent[i]))
    && forall p {:trigger p in arrived} :: p in arrived ==> p < s.Next()
  }

  /** The next to arrive is not ahead of the receiver. */
  lemma {:induction false} NextIsNotAhead(s: Channel, sent: seq<nat>, arrived: seq<nat>)
    requires UpToDate(s, sent, arrived) && |arrived| < |sent| && s.stream.start <= s.Next()
    ensures sent[|arrived|] <= s.Next() && sent[|arrived|] in s.net
  {
    hide Good;
    var p := sent[|arrived|];
    assert p in sent && sent[..|arrived|] == arrived;
    assert s.Next() < p ==> s.Next() in arrived;
  }

  lemma {:induction false} ArrivesInOrder(s: Channel, sent: seq<nat>, arrived: seq<nat>)
    requires UpToDate(s, sent, arrived) && |arrived| < |sent|
    ensures UpToDate(Apply(s, Arrive(sent[|arrived|])), sent, arrived + [sent[|arrived|]])
  {
    hide Good, Apply, HandleUdp, Consumed, Doubled, TooEarly, CommandEnd.Counted, AllSent;
    var p := sent[|arrived|];
    var step, s' := Arrive(p), Apply(s, Arrive(p));
    StartIsBehind(s);
    NextIsNotAhead(s, sent, arrived);
    NotDoubled(s, p);
    NothingAdded({});
    ProperArrival(s, p);
    StepKeepsGood(s, step, {});
    StepWithinEnd(s, step, {});
    GoodIsCounted(s);
    StepCounted(s, step);
    GoodIsPrefixed(s, {});
    FarAheadInStep(s, step);
    ArrivedIs(s, p);
    ApplyKeeps(s, step);
    if p == s.Next() { OneConsumed(s); }
    assert arrived + [p] == sent[..|arrived| + 1];
    assert forall q {:trigger q in arrived + [p]} :: q in arrived + [p] <==> q in arrived || q == p;
  }

  lemma {:induction false} StartIsBehind(s: Channel)
    requires Good(s, {})
    ensures s.stream.start <= s.Next()
    ensures forall p {:trigger p in s.net} :: p in s.net ==> s.stream.start <= p < s.stream.End()
  {
  }

  lemma NotDoubled(s: Channel, p: nat)
    requires p <= s.Next()
    ensures !Doubled(s, Arrive(p)) && !FarAhead(s, Arrive(p))
  {
  }

  lemma ProperArrival(s: Channel, p: nat)
    ensures Proper(s, Arrive(p))
  {
  }

  lemma {:induction false} GoodIsCounted(s: Channel)
    requires Good(s, {}) && s.ended.None?
    ensures CommandEnd.Counted(s)
  {
    hide Sane, Tracked;
    SaneOf(s, s.Next());
    NextIsOf(s, s.Next());
  }

  /** A packet in order is gone through, if reassembly does not fail. */
  lemma {:induction false} OneConsumed(s: Channel)
    requires Good(s, {}) && s.ended.None? && s.Next() in s.net && Apply(s, Arrive(s.Next())).ended.None?
    ensures s.Next() < Apply(s, Arrive(s.Next())).Next()
  {
    hide Consistent, Tracked, Consumed, HandleUdp, Apply, Sane, Prefixed, Stream.Valid, InSync, Stream.At;
    var n := s.Next();
    SaneOf(s, n);
    InRange(s, n);
    NextIsOf(s, n);
    ArrivedIs(s, n);
    InOrderResult(s.codec, s.stream, n, s.receiver);
  }

  lemma {:induction false} OtherSteps(s: Channel, step: Step, sent: seq<nat>, arrived: seq<nat>)
    requires UpToDate(s, sent, arrived) && Proper(s, step) && !step.Arrive?
    requires step.Transmit? && Goes(s, step.p) ==> AllSent(s.stream.start, sent, step.p)
    ensures UpToDate(Apply(s, step), sent + (if step.Transmit? && Goes(s, step.p) then [step.p] else []), arrived)
  {
    hide Good, Doubled, AllSent, HandleUdp, Consumed, Proper, Split, EnqueueAll;
    var s' := Apply(s, step);
    NotArriving(s, step);
    NothingAdded({});
    StepKeepsGood(s, step, {});
    if step.Forge? { ForgeIs(s, step.w); }
    if step.Transmit? && Goes(s, step.p) {
      var more := sent + [step.p];
      assert forall i {:trigger more[i]} :: 0 <= i < |more| ==>
          more[i] == (if i < |sent| then sent[i] else step.p) && more[..i] == sent[..i];
    } else {
      assert sent + [] == sent;
    }
  }

  lemma NotArriving(s: Channel, step: Step)
    requires !step.Arrive?
    ensures !Doubled(s, step)
  {
  }

  lemma NothingAdded(ps: set<nat>)
    ensures ps + {} == ps
  {
  }

  /**
   * Over a network that loses nothing and keeps the order, a sender that sends positions for the first time in
   * their order never meets a full command queue, nor does anything else end the connection: whatever
   * has arrived is consumed, and safety holds. Packets may be repeated, and forged ones may arrive.
   */
  lemma {:induction false} LosslessRunsLive(codec: Codec, start: nat, acks: Acks, steps: seq<Step>)
    requires Lawful(codec) && start <= STREAM_LIMIT
    requires Always(Initial(codec, start, acks), steps, Proper)
    requires KeepsOrder(Initial(codec, start, acks), steps) && FirstInOrder(Initial(codec, start, acks), steps)
    ensures var s := Run(Initial(codec, start, acks), steps);
      UpToDate(s, Sendings(Initial(codec, start, acks), steps), Arrivals(steps))
    decreases |steps|
  {
    hide UpToDate, Apply, Proper, Always, KeepsOrder, FirstInOrder, AllSent, Goes;
    var s0 := Initial(codec, start, acks);
    if steps == [] {
      NothingSent(codec, start, acks);
    } else {
      var front, step := steps[..|steps| - 1], steps[|steps| - 1];
      AlwaysFront(s0, steps, Proper);
      KeepsOrderFront(s0, steps);
      LosslessRunsLive(codec, start, acks, front);
      StartKept(s0, front);
      if step.Arrive? {
        ArrivesInOrder(Run(s0, front), Sendings(s0, front), Arrivals(front));
        assert Sendings(s0, front) + [] == Sendings(s0, front);
      } else {
        OtherSteps(Run(s0, front), step, Sendings(s0, front), Arrivals(front));
        assert Arrivals(front) + [] == Arrivals(front);
      }
    }
  }

  lemma {:induction false} NothingSent(codec: Codec, start: nat, acks: Acks)
    requires Lawful(codec) && start <= STREAM_LIMIT
    ensures UpToDate(Initial(codec, start, acks), [], [])
  {
    hide Good;
    InitialGood(codec, start, acks);
  }

  /** So such a connection never ends, and everything that has arrived is released in order. */
  lemma {:induction false} LosslessRunsNeverEnd(codec: Codec, start: nat, acks: Acks, steps: seq<Step>)
    requires Lawful(codec) && start <= STREAM_LIMIT
    requires Always(Initial(codec, start, acks), steps, Proper)
    requires KeepsOrder(Initial(codec, start, acks), steps) && FirstInOrder(Initial(codec, start, acks), steps)
    ensures var s := Run(Initial(codec, start, acks), steps);
      && s.ended.None? && Contents(s.released) <= Contents(s.commands)
      && (forall p {:trigger p in Arrivals(steps)} :: p in Arrivals(steps) ==> p < s.Next())
      && (s.Next() == s.stream.End() ==> Contents(s.released) == Contents(s.commands))
  {
    hide Run, Contents, Good, AllSent;
    var s := Run(Initial(codec, start, acks), steps);
    LosslessRunsLive(codec, start, acks, steps);
    GoodIsPrefixed(s, {});
    ConsistentIsSafe(s);
  }
}
