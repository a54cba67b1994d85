/**
 * Acks can be lost for good: once 32767 of them in a row have not arrived, the next one is decrypted under a
 * wrong generation. In this run a single packet is doubled often enough, and the sender never hears of
 * anything again.
 */
module LostAcks {
  import opened Prelude
  import opened PacketIds
  import opened AckNumbers
  import opened Fragmentation
  import opened CommandCodec
  import opened Resender
  import opened CommandChannel
  import opened CommandSafety
  import opened CommandAcks
  import opened AckDelivery
  import opened SendWindow
  import opened StaleDuplicate
  import opened EarlyPacket

  /** 201 commands; number 0 is sent once and arrives k times, and no ack arrives. */
  function DoublingRun(k: nat): seq<Step> {
    Sends(201) + ([Transmit(0)] + Arrivals(k))
  }

  function Arrivals(k: nat): (steps: seq<Step>)
    ensures |steps| == k && forall i {:trigger steps[i]} :: 0 <= i < k ==> steps[i] == Arrive(0)
  {
    seq(k, i => Arrive(0))
  }

  /** Number 0 arrived j times. */
  ghost predicate Doubling(s: Channel, j: nat) {
    && AckInvariant(s) && s.ended.None? && s.commands == Commands(201) && s.stream == Stream(0, Commands(201))
    && |s.pending| == 201 && s.pending[0] == 0 && 0 in s.net
    && |s.acks.sent| == j && s.acks.first == 0 && s.acks.heard == 0 && !s.acks.ignoresOne
  }

  lemma {:induction false} FirstSent(s: Channel)
    requires Ready(s, 201) && AckInvariant(s)
    ensures Doubling(Apply(s, Transmit(0)), 0) && Always(s, [Transmit(0)], Limit(MAX_QUEUE_LEN))
  {
    hide AckInvariant, Apply, FirstIds, Got;
    assert s.pending[0] == 0;
    TransmitFirstIdsOf(s, 0);
    StepKeeps(s, Transmit(0));
    AlwaysOne(s, Transmit(0), Limit(MAX_QUEUE_LEN));
  }

  lemma {:induction false} ArrivesAgain(s: Channel, j: nat)
    requires Doubling(s, j)
    ensures Doubling(Apply(s, Arrive(0)), j + 1)
  {
    hide AckInvariant, Apply, FirstIds, Got;
    ArriveFirstIdsOf(s, 0);
    PendingInStream(s, 0);
    NextBelowEnd(s);
    ProperArrivals(s, 0);
    StepKeeps(s, Arrive(0));
  }

  lemma {:induction false} NextBelowEnd(s: Channel)
    requires AckInvariant(s)
    ensures s.stream.start <= s.Next() <= s.stream.End()
  {
    NextInRange(s);
  }

  lemma {:induction false} AfterArrivals(s: Channel, k: nat)
    requires Doubling(s, 0)
    ensures Doubling(Run(s, Arrivals(k)), k) && Always(s, Arrivals(k), Limit(MAX_QUEUE_LEN))
    decreases k
  {
    hide Doubling, Apply;
    if k > 0 {
      assert Arrivals(k)[..k - 1] == Arrivals(k - 1);
      AfterArrivals(s, k - 1);
      ArrivesAgain(Run(s, Arrivals(k - 1)), k - 1);
    }
  }

  lemma {:induction false} SendsAreBelow(s: Channel, k: nat)
    ensures Always(s, Sends(k), Limit(MAX_QUEUE_LEN))
  {
    hide Run;
  }

  lemma {:induction false} AfterDoubling(k: nat)
    ensures var s0 := Initial(PLAIN_CODEC, 0, NO_ACKS);
      Doubling(Run(s0, DoublingRun(k)), k) && Always(s0, DoublingRun(k), Limit(MAX_QUEUE_LEN))
  {
    hide Doubling, Apply, Run, Always, Ready, Sends, AckInvariant;
    var s0 := Initial(PLAIN_CODEC, 0, NO_ACKS);
    AfterReady(201);
    SendsAreBelow(s0, 201);
    var s := Run(s0, Sends(201));
    FirstSent(s);
    RunOfOne(s, Transmit(0));
    AfterArrivals(Apply(s, Transmit(0)), k);
    RunConcat(s0, Sends(201), [Transmit(0)] + Arrivals(k));
    RunConcat(s, [Transmit(0)], Arrivals(k));
    AlwaysConcat(s, [Transmit(0)], Arrivals(k), Limit(MAX_QUEUE_LEN));
    AlwaysConcat(s0, Sends(201), [Transmit(0)] + Arrivals(k), Limit(MAX_QUEUE_LEN));
  }

  lemma {:induction false} DoublingProper(k: nat)
    requires k <= FULL_RANGE - 2 * ID_RANGE
    ensures Always(Initial(PLAIN_CODEC, 0, NO_ACKS), DoublingRun(k), Proper)
  {
    var steps := DoublingRun(k);
    SendsAreOurs(201);
    forall i | 0 <= i < |steps|
      ensures Ours(steps[i])
    {
      if i < 201 { assert steps[i] == Sends(201)[i]; }
    }
    OursProper(steps);
  }

  /**
   * However often number 0 arrived, the connection lives, and number 0 can still be acked if and only if this was
   * fewer than 32767 times: otherwise neither does a retransmission help nor anything else, but for an ack
   * from before.
   */
  lemma {:induction false} AcksAreLostIff(k: nat)
    requires k <= FULL_RANGE - 2 * ID_RANGE
    ensures var s0 := Initial(PLAIN_CODEC, 0, NO_ACKS);
      Always(s0, DoublingRun(k), Proper) && Always(s0, DoublingRun(k), Limit(MAX_QUEUE_LEN))
    ensures var s := Run(Initial(PLAIN_CODEC, 0, NO_ACKS), DoublingRun(k));
      && AckInvariant(s) && s.ended.None? && |s.pending| == 201
      && (Retransmitted(s).pending == s.pending <==> k >= WINDOW)
      && ((exists more {:trigger Continues(s, more)} :: Continues(s, more) && Run(s, more).pending == [])
          <==> k < WINDOW)
  {
    hide AckInvariant, Apply, Run, Always, Continues, Retransmitted;
    var s := Run(Initial(PLAIN_CODEC, 0, NO_ACKS), DoublingRun(k));
    DoublingProper(k);
    AfterDoubling(k);
    NextBelowEnd(s);
    RetransmissionHealsIff(s);
    GetsThroughIff(s);
  }

  /** A sender that stays below 200 then never sends number 200: at most 200 commands are ever released. */
  lemma {:induction false} SenderStalls(k: nat, more: seq<Step>)
    requires WINDOW <= k <= FULL_RANGE - 2 * ID_RANGE
    requires var s := Run(Initial(PLAIN_CODEC, 0, NO_ACKS), DoublingRun(k));
      Continues(s, more) && Always(s, more, Limit(MAX_QUEUE_LEN)) && Always(s, more, NearForgery)
    ensures var s' := Run(Run(Initial(PLAIN_CODEC, 0, NO_ACKS), DoublingRun(k)), more);
      s'.Next() <= 200 && |s'.released| <= 200 && 0 in s'.pending
  {
    hide AckInvariant, Apply, Run, Always, DoublingRun, Limited, Acks.CanHear;
    var s0 := Initial(PLAIN_CODEC, 0, NO_ACKS);
    var s := Run(s0, DoublingRun(k));
    DoublingProper(k);
    AfterDoubling(k);
    Unheard(s, k);
    RunConcat(s0, DoublingRun(k), more);
    AlwaysConcat(s0, DoublingRun(k), more, Proper);
    AlwaysConcat(s0, DoublingRun(k), more, Limit(MAX_QUEUE_LEN));
    NothingForged(s0, k);
    AlwaysConcat(s0, DoublingRun(k), more, NearForgery);
    LimitedSenderStalls(PLAIN_CODEC, 0, NO_ACKS, DoublingRun(k), more, MAX_QUEUE_LEN);
    LimitedRuns(PLAIN_CODEC, 0, NO_ACKS, DoublingRun(k) + more, MAX_QUEUE_LEN);
    StartKept(s0, DoublingRun(k) + more);
    ReleasedBefore(Run(s, more));
    var s' := Run(s, more);
    ReleasedAtMost(s'.codec, NOTHING, s'.stream.packets[..s'.Next()]);
  }

  lemma {:induction false} NothingForged(s: Channel, k: nat)
    ensures Always(s, DoublingRun(k), NearForgery)
  {
    hide Run;
    forall i | 0 <= i < |DoublingRun(k)|
      ensures !DoublingRun(k)[i].Forge?
    {
    }
  }

  lemma Unheard(s: Channel, k: nat)
    requires Doubling(s, k) && WINDOW <= k
    ensures !s.acks.CanHear() && s.pending != [] && s.pending[0] == 0
  {
  }

  lemma {:induction false} ReleasedAtMost(codec: Codec, a: Assembly, ps: seq<Packet>)
    ensures |Assemble(codec, a, ps).released| <= |a.released| + |ps|
    decreases |ps|
  {
    if ps != [] {
      ReleasedAtMost(codec, AbsorbStep(codec, a, ps[0]), ps[1..]);
    }
  }
}
