/**
 * The receive queue does not look for duplicates. A packet that arrives twice while it is
 * early leaves a copy behind, and 65536 ids later the copy is released again. So both
 * hypotheses of the safety theorems are needed: this run is proper but not safe.
 */
module StaleDuplicate {
  import opened Prelude
  import opened PacketIds
  import opened Fragmentation
  import opened CommandCodec
  import opened Resender
  import opened CommandChannel
  import opened AckNumbers

  /** Compression that does nothing is lawful. */
  const PLAIN_CODEC: Codec := Codec(x => x, x => if |x| <= MAX_DECOMPRESSED_SIZE then Some(x) else None)

  /** The first ack has the id 0, and it is the one expected. */
  const NO_ACKS: Acks := Acks(0, [], PartialPacketId(0, 0), 0, false)

  /** Command i: all alike but for number 1. */
  function Command(i: nat): Packet {
    Packet(S2C, Flags(false, false, false, false), [if i == 1 then 1 else 0])
  }

  function Commands(k: nat): (cs: seq<Packet>)
    ensures |cs| == k && forall i :: 0 <= i < k ==> cs[i] == Command(i)
  {
    seq(k, i requires 0 <= i => Command(i))
  }

  /** One more than fits between two uses of an id. */
  const COUNT: nat := 65538

  function Sends(k: nat): (steps: seq<Step>)
    ensures |steps| == k && forall i :: 0 <= i < k ==> steps[i] == Send(Command(i))
  {
    seq(k, i requires 0 <= i => Send(Command(i)))
  }

  function Transmits(k: nat): (steps: seq<Step>)
    ensures |steps| == k && forall i :: 0 <= i < k ==> steps[i] == Transmit(i)
  {
    seq(k, i requires 0 <= i => Transmit(i))
  }

  /** Arrivals of positions 2, 3, ..., k + 1. */
  function InOrder(k: nat): (steps: seq<Step>)
    ensures |steps| == k && forall i :: 0 <= i < k ==> steps[i] == Arrive(i + 2)
  {
    seq(k, i requires 0 <= i => Arrive(i + 2))
  }

  lemma SplitOne(i: nat)
    ensures Split(PLAIN_CODEC, Outgoing(Command(i))) == [Command(i)] && Outgoing(Command(i)) == Command(i)
    ensures Deliverable(PLAIN_CODEC, Command(i))
  {
  }

  ghost predicate Sent(s: Channel, k: nat) {
    s.codec == PLAIN_CODEC && s.commands == Commands(k) && s.stream == Stream(0, Commands(k))
    && s.net == {} && s.receiver == Receiver(Of(0), [], None) && s.released == [] && s.ended == None
    && forall i {:trigger Numbered(i, Command(i))} :: 0 <= i < k ==> Numbered(i, Command(i)).Key() in s.pending
  }

  lemma {:induction false} AfterSends(k: nat)
    ensures Sent(Run(Initial(PLAIN_CODEC, 0, NO_ACKS), Sends(k)), k)
    decreases k
  {
    var s0 := Initial(PLAIN_CODEC, 0, NO_ACKS);
    if k > 0 {
      assert Sends(k)[..k - 1] == Sends(k - 1);
      AfterSends(k - 1);
      SendOne(Run(s0, Sends(k - 1)), k - 1);
    }
  }

  lemma SendOne(s: Channel, k: nat)
    requires Sent(s, k)
    ensures Sent(Apply(s, Send(Command(k))), k + 1)
  {
    hide Numbered, Of;
    SplitOne(k);
    var s' := Apply(s, Send(Command(k)));
    assert Commands(k + 1) == Commands(k) + [Command(k)];
    EnqueueAllMembers(s.pending, Keys(k, [Command(k)]));
    assert Keys(k, [Command(k)])[0] == Numbered(k, Command(k)).Key();
  }

  /** All commands are sent, the first m of them are on the network. */
  ghost predicate Transmitted(s: Channel, m: nat) {
    s.codec == PLAIN_CODEC && s.commands == Commands(COUNT) && s.stream == Stream(0, Commands(COUNT)) && s.ended == None
    && (forall p {:trigger p in s.net} :: p in s.net <==> 0 <= p < m)
    && forall i {:trigger Numbered(i, Command(i))} :: 0 <= i < COUNT ==> Numbered(i, Command(i)).Key() in s.pending
  }

  lemma {:induction false} AfterTransmits(s: Channel, m: nat)
    requires Sent(s, COUNT) && m <= COUNT
    ensures var s' := Run(s, Transmits(m));
      Transmitted(s', m) && s'.receiver == s.receiver && s'.released == s.released
    decreases m
  {
    hide Numbered, Of;
    if m > 0 {
      assert Transmits(m)[..m - 1] == Transmits(m - 1);
      AfterTransmits(s, m - 1);
      var s1 := Run(s, Transmits(m - 1));
      assert KeyOf(s1, m - 1) == Numbered(m - 1, Command(m - 1)).Key();
    }
  }

  /** n commands are released in order, and a copy of number 1 is still in the queue. */
  ghost predicate CopyLeft(s: Channel, n: nat) {
    Transmitted(s, COUNT) && |s.released| == n
    && s.receiver == Receiver(Of(n), [s.stream.At(1)], None)
  }

  /** Nothing is released yet, some copies of number 1 wait. */
  ghost predicate Waiting(s: Channel, copies: nat) {
    Transmitted(s, COUNT) && s.released == []
    && s.receiver == Receiver(Of(0), seq(copies, _ => s.stream.At(1)), None)
  }

  lemma EarlyArrival(s: Channel, copies: nat)
    requires Waiting(s, copies) && copies <= 1
    ensures Waiting(Apply(s, Arrive(1)), copies + 1)
  {
    var w1 := s.stream.At(1);
    var queue := seq(copies, _ => w1);
    assert HandleUdp(PLAIN_CODEC, Receiver(Of(0), queue, None), w1).receiver == Receiver(Of(0), queue + [w1], None);
    assert queue + [w1] == seq(copies + 1, _ => w1);
  }

  lemma FirstArrivals(s: Channel)
    requires Waiting(s, 0)
    ensures CopyLeft(Apply(Apply(Apply(s, Arrive(1)), Arrive(1)), Arrive(0)), 2)
  {
    hide Apply;
    EarlyArrival(s, 0);
    EarlyArrival(Apply(s, Arrive(1)), 1);
    ThirdArrival(Apply(Apply(s, Arrive(1)), Arrive(1)));
  }

  lemma ThirdArrival(s: Channel)
    requires Waiting(s, 2)
    ensures CopyLeft(Apply(s, Arrive(0)), 2)
  {
    var w0, w1 := s.stream.At(0), s.stream.At(1);
    var r := Receiver(Of(0), [w1, w1], None);
    assert s.receiver == r;
    TurnGoesOn(r, w0, [], w1, [w1]);
    TurnStops(Receiver(Of(1), [w1], None), w1, [Command(0)]);
    assert HandleUdp(PLAIN_CODEC, r, w0) ==
           Reaction(Receiver(Of(2), [w1], None), [Command(0), Command(1)], Some(0), None);
  }

  lemma TurnGoesOn(r: Receiver, w: Wire, out: seq<Packet>, w': Wire, rest: seq<Wire>)
    requires r.pending == None && !w.packet.flags.fragmented && !w.packet.flags.compressed
    requires Extract(r.queue, (w.id + 1) % ID_RANGE) == Some((w', rest))
    ensures Drain(PLAIN_CODEC, r, w, out) ==
            Drain(PLAIN_CODEC, Receiver(r.next.Plus(1), rest, None), w', out + [w.packet])
  {
  }

  lemma TurnStops(r: Receiver, w: Wire, out: seq<Packet>)
    requires r.pending == None && !w.packet.flags.fragmented && !w.packet.flags.compressed
    requires Extract(r.queue, (w.id + 1) % ID_RANGE).None?
    ensures Drain(PLAIN_CODEC, r, w, out) == (Receiver(r.next.Plus(1), r.queue, None), Released(out + [w.packet]))
  {
  }

  /** An in-order packet whose successor is not waiting is released alone. */
  lemma NextArrival(s: Channel, n: nat)
    requires CopyLeft(s, n) && 2 <= n < 65536
    ensures CopyLeft(Apply(s, Arrive(n)), n + 1)
  {
    var w := s.stream.At(n);
    InWindow(s.receiver, n, w);
    OfPlusOne(n);
    assert Extract([s.stream.At(1)], (w.id + 1) % ID_RANGE).None?;
    TurnStops(s.receiver, w, []);
    assert HandleUdp(PLAIN_CODEC, s.receiver, w) ==
           Reaction(Receiver(Of(n + 1), s.receiver.queue, None), [Command(n)], Some(w.id), None);
  }

  lemma InWindow(r: Receiver, n: nat, w: Wire)
    requires r.next == Of(n) && w.id == n % ID_RANGE && w.generation == Of(n).generation
    requires !w.packet.flags.unencrypted
    ensures HandleUdp(PLAIN_CODEC, r, w) ==
      match Drain(PLAIN_CODEC, r, w, [])
      case (r', Released(packets)) => Reaction(r', packets, Some(w.id), None)
      case (r', Failed(error)) => Reaction(r', [], None, Some(error))
  {
    NearPositionsAreRecovered(n, n);
  }

  lemma {:induction false} AfterInOrder(s: Channel, k: nat)
    requires CopyLeft(s, 2) && k <= 65534
    ensures CopyLeft(Run(s, InOrder(k)), k + 2)
    decreases k
  {
    hide CopyLeft, Apply;
    if k == 0 {
      assert Run(s, []) == s;
    } else {
      assert InOrder(k)[..k - 1] == InOrder(k - 1);
      AfterInOrder(s, k - 1);
      NextArrival(Run(s, InOrder(k - 1)), k + 1);
    }
  }

  /** Position 65536 is in order, and the id after it is that of the copy. */
  lemma CopyReleased(s: Channel)
    requires CopyLeft(s, 65536)
    ensures var s' := Apply(s, Arrive(65536));
      s'.commands == Commands(COUNT) && |s'.released| == COUNT && s'.released[65537] == Command(1)
  {
    var w, w1 := s.stream.At(65536), s.stream.At(1);
    InWindow(s.receiver, 65536, w);
    assert w.id == 0 && w1.id == 1;
    assert Extract([w1], 1) == Some((w1, []));
    TurnGoesOn(s.receiver, w, [], w1, []);
    TurnStops(Receiver(s.receiver.next.Plus(1), [], None), w1, [Command(65536)]);
  }

  /** The whole run: positions 1, 1 and 0 arrive, then everything else in order. */
  function BadRun(): seq<Step> {
    Sends(COUNT) + (Transmits(COUNT) + ([Arrive(1), Arrive(1), Arrive(0)] + (InOrder(65534) + [Arrive(65536)])))
  }

  lemma BadRunReleases()
    ensures var s := Run(Initial(PLAIN_CODEC, 0, NO_ACKS), BadRun());
      s.commands == Commands(COUNT) && |s.released| == COUNT && s.released[65537] == Command(1)
  {
    hide Run, Apply, Sent, Transmitted, CopyLeft, Sends, Transmits, InOrder;
    var s0 := Initial(PLAIN_CODEC, 0, NO_ACKS);
    var first, last := [Arrive(1), Arrive(1), Arrive(0)], InOrder(65534) + [Arrive(65536)];
    AfterSends(COUNT);
    var s1 := Run(s0, Sends(COUNT));
    RunConcat(s0, Sends(COUNT), Transmits(COUNT) + (first + last));
    AfterTransmits(s1, COUNT);
    var s2 := Run(s1, Transmits(COUNT));
    RunConcat(s1, Transmits(COUNT), first + last);
    RunConcat(s2, first, last);
    RunOfThree(s2, Arrive(1), Arrive(1), Arrive(0));
    SentFresh(s1, COUNT);
    FirstArrivals(s2);
    var s3 := Run(s2, first);
    AfterInOrder(s3, 65534);
    RunConcat(s3, InOrder(65534), [Arrive(65536)]);
    RunOfOne(Run(s3, InOrder(65534)), Arrive(65536));
    CopyReleased(Run(s3, InOrder(65534)));
  }

  lemma SentFresh(s: Channel, k: nat)
    requires Sent(s, k)
    ensures s.receiver == Receiver(Of(0), [], None) && s.released == []
  {
  }

  /** Only commands of this run are sent, each a single packet. */
  predicate Ours(step: Step) {
    step.Send? ==> exists b | 0 <= b < 2 :: step.command == Command(b)
  }

  lemma {:induction false} ShortStream(steps: seq<Step>)
    requires forall i :: 0 <= i < |steps| ==> Ours(steps[i])
    ensures var s := Run(Initial(PLAIN_CODEC, 0, NO_ACKS), steps); s.codec == PLAIN_CODEC && s.stream.End() <= |steps|
    decreases |steps|
  {
    if steps != [] {
      var front, step := steps[..|steps| - 1], steps[|steps| - 1];
      ShortStream(front);
      if step.Send? {
        var b :| 0 <= b < 2 && step.command == Command(b);
        SplitOne(b);
      }
    }
  }

  /** Every run of at most so many of these commands is proper. */
  lemma {:induction false} OursProper(steps: seq<Step>)
    requires |steps| <= STREAM_LIMIT && forall i :: 0 <= i < |steps| ==> Ours(steps[i])
    ensures Always(Initial(PLAIN_CODEC, 0, NO_ACKS), steps, Proper)
  {
    forall k | 0 <= k < |steps|
      ensures Proper(Run(Initial(PLAIN_CODEC, 0, NO_ACKS), steps[..k]), steps[k])
    {
      ShortStream(steps[..k]);
      if steps[k].Send? {
        var b :| 0 <= b < 2 && steps[k].command == Command(b);
        SplitOne(b);
      }
    }
  }

  lemma SendsAreOurs(k: nat)
    ensures forall i :: 0 <= i < k ==> Ours(Sends(k)[i])
  {
    forall i | 0 <= i < k
      ensures Ours(Sends(k)[i])
    {
      assert Sends(k)[i] == Send(Command(i)) && Command(i) == Command(if i == 1 then 1 else 0);
    }
  }

  lemma {:induction false} BadRunProper()
    ensures Always(Initial(PLAIN_CODEC, 0, NO_ACKS), BadRun(), Proper)
  {
    var steps := BadRun();
    SendsAreOurs(COUNT);
    forall i | 0 <= i < |steps|
      ensures Ours(steps[i])
    {
      if i < COUNT { assert steps[i] == Sends(COUNT)[i]; }
    }
    OursProper(steps);
  }

  /** A proper run of 65538 packets in which the receiver gets something that was not sent next. */
  lemma {:induction false} DuplicatesBreakSafety() returns (codec: Codec, steps: seq<Step>)
    ensures Lawful(codec) && Always(Initial(codec, 0, NO_ACKS), steps, Proper)
    ensures var s := Run(Initial(codec, 0, NO_ACKS), steps);
      !(Contents(s.released) <= Contents(s.commands))
  {
    codec, steps := PLAIN_CODEC, BadRun();
    BadRunProper();
    BadRunReleases();
    var s := Run(Initial(PLAIN_CODEC, 0, NO_ACKS), BadRun());
    assert Contents(s.released)[65537] == [1] && Contents(s.commands)[65537] == [0];
  }
}
