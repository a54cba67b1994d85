/**
 * One lost packet, and what a sender with a small or a large window makes of it. Of the commands 0 to n the
 * first is lost, the next 199 arrive and are acked one after the other, and then number n arrives. If n is
 * 200, two packets in the heap are enough for this, and the connection ends. If n is 32767, it takes 32569
 * packets, and number n is acked without being read.
 */
module EarlyPacket {
  import opened Prelude
  import opened PacketIds
  import opened AckNumbers
  import opened Fragmentation
  import opened CommandCodec
  import opened Resender
  import opened CommandChannel
  import opened CommandSafety
  import opened CommandAcks
  import opened AckDelivery
  import opened SendWindow
  import opened StaleDuplicate

  /** Number i is sent, arrives and is acked; it is the i-th ack. */
  function Round(i: nat): seq<Step>
    requires i > 0
  {
    [Transmit(i), Arrive(i), AckArrives(i - 1)]
  }

  function Rounds(k: nat): seq<Step> {
    if k == 0 then [] else Rounds(k - 1) + Round(k)
  }

  function LossRun(n: nat): seq<Step> {
    Sends(n + 1) + (Rounds(MAX_QUEUE_LEN - 1) + [Transmit(n), Arrive(n)])
  }

  /** What is pending after i rounds. */
  function Left(n: nat, i: nat): (ids: seq<nat>)
    requires i <= n
    ensures |ids| == n - i + 1 && ids[0] == 0 && forall j {:trigger ids[j]} :: 0 < j < |ids| ==> ids[j] == i + j
  {
    seq(n - i + 1, j requires j >= 0 => if j == 0 then 0 else i + j)
  }

  /** Nothing was sent yet but the commands. */
  ghost predicate Ready(s: Channel, k: nat) {
    && s.codec == PLAIN_CODEC && s.stream == Stream(0, Commands(k)) && s.commands == Commands(k)
    && s.ended.None? && s.consumed == [] && s.released == [] && s.net == {} && s.acks == NO_ACKS
    && |s.pending| == k && forall i {:trigger s.pending[i]} :: 0 <= i < k ==> s.pending[i] == i
  }

  lemma {:induction false} AfterReady(k: nat)
    requires k <= LAST_ID
    ensures Ready(Run(Initial(PLAIN_CODEC, 0, NO_ACKS), Sends(k)), k)
    ensures AckInvariant(Run(Initial(PLAIN_CODEC, 0, NO_ACKS), Sends(k)))
    decreases k
  {
    hide AckInvariant, Apply, FirstIds;
    var s0 := Initial(PLAIN_CODEC, 0, NO_ACKS);
    if k == 0 {
      InitialInvariant(PLAIN_CODEC, 0, NO_ACKS);
    } else {
      assert Sends(k)[..k - 1] == Sends(k - 1);
      AfterReady(k - 1);
      ReadyOne(Run(s0, Sends(k - 1)), k - 1);
    }
  }

  lemma {:induction false} ReadyOne(s: Channel, k: nat)
    requires Ready(s, k) && AckInvariant(s) && k < LAST_ID
    ensures Ready(Apply(s, Send(StaleDuplicate.Command(k))), k + 1)
            && AckInvariant(Apply(s, Send(StaleDuplicate.Command(k))))
  {
    hide AckInvariant, FirstIds, Keys, EnqueueAll, Got;
    SplitOne(k);
    assert Commands(k + 1) == Commands(k) + [StaleDuplicate.Command(k)];
    assert Proper(s, Send(StaleDuplicate.Command(k))) && NearArrival(s, Send(StaleDuplicate.Command(k)));
    StepKeeps(s, Send(StaleDuplicate.Command(k)));
    SendFirstIdsOf(s, StaleDuplicate.Command(k));
  }

  /** Position 0 was never on the network; the next i packets were received, and their acks were read. */
  ghost predicate AfterRounds(s: Channel, n: nat, i: nat)
    requires i <= n
  {
    && AckInvariant(s) && s.ended.None? && s.stream == Stream(0, Commands(n + 1)) && s.commands == Commands(n + 1)
    && s.pending == Left(n, i) && 0 !in s.net
    && |s.acks.sent| == i && s.acks.first == 0 && s.acks.heard == i && !s.acks.ignoresOne
  }

  lemma {:induction false} ReadyIsRounds(s: Channel, n: nat)
    requires Ready(s, n + 1) && AckInvariant(s)
    ensures AfterRounds(s, n, 0)
  {
    hide AckInvariant;
    assert s.pending == Left(n, 0);
  }

  /** Without position 0 nothing is released. */
  lemma {:induction false} NothingReleased(s: Channel)
    requires AckInvariant(s) && s.stream.start == 0 && 0 !in s.net
    ensures s.Next() == 0 && s.released == []
  {
    hide FirstIds, AcksGot;
    assert 0 < s.Next() ==> Got(s, 0);
    ReleasedBefore(s);
    assert s.stream.packets[..0] == [];
  }

  lemma {:induction false} ReleasedBefore(s: Channel)
    requires AckInvariant(s)
    ensures s.stream.start <= s.Next() <= s.stream.End() && s.released == s.stream.Before(s.codec, s.Next()).released
  {
    NextInRange(s);
  }

  lemma {:induction false} OneRound(s: Channel, n: nat, i: nat)
    requires 0 < i <= n < LAST_ID && i < MAX_QUEUE_LEN && AfterRounds(s, n, i - 1)
    ensures AfterRounds(Run(s, Round(i)), n, i)
    ensures Always(s, Round(i), HeapLimit(2))
  {
    hide AckInvariant, Apply, Got, FirstIds, Acks.Counted, AckEvent, AfterAck, Sends;
    NothingReleased(s);
    TransmitFirstIdsOf(s, i);
    assert s.pending[1] == i;
    StepKeeps(s, Transmit(i));
    var s1 := Apply(s, Transmit(i));
    ArriveFirstIdsOf(s1, i);
    ProperArrivals(s1, i);
    StepKeeps(s1, Arrive(i));
    var s2 := Apply(s1, Arrive(i));
    CountedOf(s2);
    ReadsAheadIff(s2.acks, i - 1);
    AckFirstIdsOf(s2, i - 1);
    assert s2.acks.sent[i - 1] == i;
    ProperAcks(s2, i - 1);
    StepKeeps(s2, AckArrives(i - 1));
    SecondAcked(n, i);
    RunOfThree(s, Transmit(i), Arrive(i), AckArrives(i - 1));
    AlwaysThree(s, Transmit(i), Arrive(i), AckArrives(i - 1), HeapLimit(2));
  }

  lemma ProperArrivals(s: Channel, p: nat)
    ensures Proper(s, Arrive(p)) && (p < s.Next() + WINDOW ==> NearArrival(s, Arrive(p)))
  {
  }

  lemma ProperAcks(s: Channel, k: nat)
    ensures Proper(s, AckArrives(k)) && NearArrival(s, AckArrives(k))
  {
  }

  /** The second pending id leaves. */
  lemma SecondAcked(n: nat, i: nat)
    requires 0 < i <= n < LAST_ID
    ensures AfterAck(Left(n, i - 1), i) == Left(n, i)
  {
    var ids := Left(n, i - 1);
    TargetIsOwnId(0, i);
    assert ids[1..][0] == i;
    assert Deleted(ids, i) == [0] + ids[1..][1..];
    assert Left(n, i) == [0] + ids[1..][1..];
  }

  lemma {:induction false} AllRounds(s: Channel, n: nat, k: nat)
    requires k <= n < LAST_ID && k < MAX_QUEUE_LEN && AfterRounds(s, n, 0)
    ensures AfterRounds(Run(s, Rounds(k)), n, k) && Always(s, Rounds(k), HeapLimit(2))
    decreases k
  {
    hide AfterRounds, Apply, Always, Run;
    if k > 0 {
      AllRounds(s, n, k - 1);
      OneRound(Run(s, Rounds(k - 1)), n, k);
      RunConcat(s, Rounds(k - 1), Round(k));
      AlwaysConcat(s, Rounds(k - 1), Round(k), HeapLimit(2));
    } else {
      NoRounds(s);
    }
  }

  lemma NoRounds(s: Channel)
    ensures Run(s, []) == s && Always(s, [], HeapLimit(2))
  {
  }

  /** The last packet arrives: 200 to 32766 positions ahead it ends the connection, further ahead it is acked. */
  lemma {:induction false} LastArrives(s: Channel, n: nat)
    requires MAX_QUEUE_LEN <= n < LAST_ID && AfterRounds(s, n, MAX_QUEUE_LEN - 1)
    ensures var s' := Run(s, [Transmit(n), Arrive(n)]);
      && FirstIds(s') && s'.pending == s.pending && s'.commands == s.commands
      && (s'.ended.Some? <==> n < WINDOW) && s'.released == []
      && (WINDOW <= n ==> s'.acks == s.acks.Sending(n) && !Got(s', n))
    ensures forall w :: n - 198 <= w ==> Always(s, [Transmit(n), Arrive(n)], HeapLimit(w))
  {
    hide Apply, Got, FirstIds, AcksGot, Accounted, Acks.Counted;
    NothingReleased(s);
    TransmitFirstIdsOf(s, n);
    assert s.pending[n - 199] == n;
    TransmitFirstIds(s, n);
    StepKeeps(s, Transmit(n));
    var s1 := Apply(s, Transmit(n));
    ArriveFirstIds(s1, n);
    NotReadIsNotReleased(s1, Apply(s1, Arrive(n)), n);
    RunOfTwo(s, Transmit(n), Arrive(n));
    forall w | n - 198 <= w
      ensures Always(s, [Transmit(n), Arrive(n)], HeapLimit(w))
    {
      var lowest := s.pending[..if w < |s.pending| then w else |s.pending|];
      assert lowest[n - 199] == n;
      AlwaysTwo(s, Transmit(n), Arrive(n), HeapLimit(w));
    }
  }

  lemma {:induction false} NotReadIsNotReleased(s: Channel, s': Channel, p: nat)
    requires s' == Apply(s, Arrive(p)) && AckInvariant(s) && FirstIds(s') && p < ID_RANGE && ArriveIs(s, s', p)
    requires s.stream.start == 0 && s.Next() == 0 && 0 < p
    ensures s'.released == []
  {
    hide Apply, Got, AcksGot, Accounted, Consistent;
    NextInRange(s);
    NextInRange(s');
    if s'.Next() > 0 { PassedIsGot(s', 0); }
    assert s'.stream.packets[..0] == [];
    ReleasedOf(s');
  }

  lemma {:induction false} ReleasedOf(s: Channel)
    requires FirstIds(s)
    ensures s.stream.start <= s.Next() <= s.stream.End() && s.released == s.stream.Before(s.codec, s.Next()).released
  {
    NextInRange(s);
  }

  // ---------------------------------------------------------------- the whole run

  lemma {:induction false} LossRunProper(n: nat)
    requires n < LAST_ID
    ensures Always(Initial(PLAIN_CODEC, 0, NO_ACKS), LossRun(n) + [AckArrives(199)], Proper)
    ensures Always(Initial(PLAIN_CODEC, 0, NO_ACKS), LossRun(n), Proper)
  {
    var s0, steps := Initial(PLAIN_CODEC, 0, NO_ACKS), LossRun(n) + [AckArrives(199)];
    SendsAreOurs(n + 1);
    RoundsAreOurs(MAX_QUEUE_LEN - 1);
    forall i | 0 <= i < |steps|
      ensures Ours(steps[i])
    {
      if i < n + 1 { assert steps[i] == Sends(n + 1)[i]; }
    }
    OursProper(steps);
    AlwaysOfPrefix(s0, LossRun(n), [AckArrives(199)], Proper);
  }

  lemma {:induction false} RoundsAreOurs(k: nat)
    ensures |Rounds(k)| == 3 * k && forall i :: 0 <= i < 3 * k ==> Ours(Rounds(k)[i])
  {
    if k > 0 { RoundsAreOurs(k - 1); }
  }

  lemma {:induction false} LimitIsWeaker(s: Channel, steps: seq<Step>, v: nat, w: nat)
    requires Always(s, steps, HeapLimit(v)) && v <= w
    ensures Always(s, steps, HeapLimit(w))
  {
    hide Run, Always;
    AlwaysWeaker(s, steps, HeapLimit(v), HeapLimit(w));
  }

  lemma {:induction false} SendsAreLimited(s: Channel, k: nat, w: nat)
    ensures Always(s, Sends(k), HeapLimit(w))
  {
    hide Run;
  }

  /** Up to the last packet, this is a run of a sender with two packets in the heap. */
  lemma {:induction false} BeforeTheLast(n: nat)
    requires MAX_QUEUE_LEN <= n < LAST_ID
    ensures var steps := Sends(n + 1) + Rounds(MAX_QUEUE_LEN - 1);
      && AfterRounds(Run(Initial(PLAIN_CODEC, 0, NO_ACKS), steps), n, MAX_QUEUE_LEN - 1)
      && Always(Initial(PLAIN_CODEC, 0, NO_ACKS), steps, HeapLimit(2))
  {
    hide AfterRounds, Ready, Apply, Always, Run, Sends, Rounds, AckInvariant;
    var s0, k := Initial(PLAIN_CODEC, 0, NO_ACKS), MAX_QUEUE_LEN - 1;
    AfterReady(n + 1);
    SendsAreLimited(s0, n + 1, 2);
    var s := Run(s0, Sends(n + 1));
    ReadyIsRounds(s, n);
    AllRounds(s, n, k);
    RunConcat(s0, Sends(n + 1), Rounds(k));
    AlwaysConcat(s0, Sends(n + 1), Rounds(k), HeapLimit(2));
  }

  /** How the run ends, for a sender that has any number of packets in the heap that suffices for it. */
  lemma {:induction false} LossRunIs(n: nat, w: nat)
    requires MAX_QUEUE_LEN <= n < LAST_ID && 2 <= w && n - 198 <= w
    ensures Always(Initial(PLAIN_CODEC, 0, NO_ACKS), LossRun(n), HeapLimit(w))
    ensures var s := Run(Initial(PLAIN_CODEC, 0, NO_ACKS), LossRun(n));
      && FirstIds(s) && s.pending == Left(n, MAX_QUEUE_LEN - 1) && s.commands == Commands(n + 1) && s.released == []
      && s.acks.heard == MAX_QUEUE_LEN - 1 && s.acks.first == 0 && !s.acks.ignoresOne
      && (s.ended.Some? <==> n < WINDOW)
      && (WINDOW <= n ==> |s.acks.sent| == MAX_QUEUE_LEN && s.acks.sent[MAX_QUEUE_LEN - 1] == n && !Got(s, n))
  {
    hide Apply, Always, Run, Sends, Rounds, AckInvariant, FirstIds, Got, LossRun;
    var s0, k := Initial(PLAIN_CODEC, 0, NO_ACKS), MAX_QUEUE_LEN - 1;
    var before, last := Sends(n + 1) + Rounds(k), [Transmit(n), Arrive(n)];
    BeforeTheLast(n);
    var s := Run(s0, before);
    LastArrives(s, n);
    LastKeepsHeard(s, n);
    LimitIsWeaker(s0, before, 2, w);
    AlwaysConcat(s0, before, last, HeapLimit(w));
    RunConcat(s0, before, last);
    LossRunSplits(n);
  }

  lemma LossRunSplits(n: nat)
    ensures LossRun(n) == (Sends(n + 1) + Rounds(MAX_QUEUE_LEN - 1)) + [Transmit(n), Arrive(n)]
  {
  }

  lemma {:induction false} LastKeepsHeard(s: Channel, n: nat)
    ensures var a := Run(s, [Transmit(n), Arrive(n)]).acks;
      a.heard == s.acks.heard && a.first == s.acks.first && a.ignoresOne == s.acks.ignoresOne
  {
    hide HandleUdp, Consumed;
    RunOfTwo(s, Transmit(n), Arrive(n));
  }

  /**
   * A single lost packet ends the connection: with two packets in the heap already (n is 200), although
   * everything that arrived before is acked and the receive queue is not full.
   */
  lemma {:induction false} OneLostPacketEnds(n: nat, w: nat)
    requires MAX_QUEUE_LEN <= n < WINDOW && 2 <= w && n - 198 <= w
    ensures Lawful(PLAIN_CODEC) && Always(Initial(PLAIN_CODEC, 0, NO_ACKS), LossRun(n), Proper)
    ensures Always(Initial(PLAIN_CODEC, 0, NO_ACKS), LossRun(n), HeapLimit(w))
    ensures var s := Run(Initial(PLAIN_CODEC, 0, NO_ACKS), LossRun(n));
      s.ended.Some? && s.released == [] && s.pending == Left(n, 199) && |s.commands| == n + 1
  {
    hide Always, Run, LossRun, FirstIds;
    LossRunProper(n);
    LossRunIs(n, w);
  }

  /**
   * From 32569 packets in the heap on (n is 32767), a packet can be acked, leave the send queue, and not have been
   * received: the hypothesis of ack soundness fails in a proper run.
   */
  lemma {:induction false} FarPacketIsAckedUnread(n: nat, w: nat)
    requires WINDOW <= n < LAST_ID && n - 198 <= w
    ensures var steps := LossRun(n) + [AckArrives(199)];
      && Always(Initial(PLAIN_CODEC, 0, NO_ACKS), steps, Proper)
      && Always(Initial(PLAIN_CODEC, 0, NO_ACKS), steps, HeapLimit(w))
    ensures var s := Run(Initial(PLAIN_CODEC, 0, NO_ACKS), LossRun(n) + [AckArrives(199)]);
      s.ended.None? && n !in s.pending && !Got(s, n) && s.released == []
  {
    hide Always, Run, LossRun, FirstIds, Apply, Got, AckEvent, AfterAck;
    var s0, last := Initial(PLAIN_CODEC, 0, NO_ACKS), [AckArrives(199)];
    LossRunProper(n);
    LossRunIs(n, w);
    var s := Run(s0, LossRun(n));
    CountedIs(s);
    ReadsAheadIff(s.acks, 199);
    AckFirstIds(s, 199);
    RunConcat(s0, LossRun(n), last);
    RunOfOne(s, AckArrives(199));
    AlwaysOne(s, AckArrives(199), HeapLimit(w));
    AlwaysConcat(s0, LossRun(n), last, HeapLimit(w));
    SameGot(s, Apply(s, AckArrives(199)));
  }

  lemma CountedIs(s: Channel)
    requires FirstIds(s)
    ensures s.acks.Counted()
  {
  }
}
