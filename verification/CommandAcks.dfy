/**
 * What acks mean, for the first 65535 ids of a connection: as long as no packet arrives half a round of
 * ids ahead, nothing leaves the send queue that has not been received, and an announced ack means delivery.
 */
module CommandAcks {
  import opened Prelude
  import opened PacketIds
  import opened AckNumbers
  import opened Fragmentation
  import opened CommandCodec
  import opened Resender
  import opened CommandChannel
  import opened DoubledPackets
  import opened CommandSafety

  /** From this id on packets are filed under the next generation. */
  const LAST_ID: nat := 0xffff

  ghost predicate Got(s: Channel, p: nat) {
    Received(s.receiver, s.Next(), p)
  }

  // ---------------------------------------------------------------- what holds for all runs

  /** The receiver is in step, and all ids are those of the first generation. */
  ghost predicate FirstIds(s: Channel) {
    Consistent(s, s.stream.start + ID_RANGE) && s.stream.End() <= LAST_ID
    && (s.ended.Some? ==> s.ended.value.CommandQueueFull?)
    && AllWithin(s, s.pending) && Increasing(s.pending)
    && s.acks.Counted()
  }

  predicate AllWithin(s: Channel, ids: seq<nat>) {
    forall i {:trigger ids[i]} :: 0 <= i < |ids| ==> s.stream.start <= ids[i] < s.stream.End()
  }

  lemma KeysArePositions(n: nat, ps: seq<Packet>)
    requires n + |ps| <= LAST_ID
    ensures forall i {:trigger Keys(n, ps)[i]} :: 0 <= i < |ps| ==> Keys(n, ps)[i] == n + i
  {
    forall i | 0 <= i < |ps|
      ensures Keys(n, ps)[i] == n + i
    {
      FiledUnderPosition(n + i, ps[i]);
    }
  }

  /** In one generation new keys are the highest ones. */
  lemma {:induction false} EnqueueAtEnd(pending: seq<nat>, keys: seq<nat>)
    requires Increasing(pending + keys)
    ensures EnqueueAll(pending, keys) == pending + keys
  {
    if keys != [] {
      var last := |keys| - 1;
      var front := pending + keys[..last];
      assert pending + keys == front + [keys[last]];
      forall i | 0 <= i < |front|
        ensures front[i] < keys[last]
      {
        assert front[i] == (pending + keys)[i] && keys[last] == (pending + keys)[|front|];
      }
      assert Increasing(front) by {
        assert forall i {:trigger front[i]} :: 0 <= i < |front| ==> front[i] == (pending + keys)[i];
      }
      EnqueueAtEnd(pending, keys[..last]);
      EnqueueLast(front, keys[last]);
    } else {
      assert pending + [] == pending;
    }
  }

  lemma {:induction false} EnqueueLast(pending: seq<nat>, key: nat)
    requires forall i {:trigger pending[i]} :: 0 <= i < |pending| ==> pending[i] < key
    ensures Enqueue(pending, key) == pending + [key]
  {
    if pending != [] {
      EnqueueLast(pending[1..], key);
      assert pending == [pending[0]] + pending[1..];
    }
  }

  lemma {:induction false} SendFirstIds(s: Channel, command: Packet)
    requires FirstIds(s) && Proper(s, Send(command))
    requires Apply(s, Send(command)).stream.End() <= LAST_ID
    ensures FirstIds(Apply(s, Send(command)))
    ensures NewKeys(s, Apply(s, Send(command)))
  {
    hide Consistent, Proper, Split, Keys, EnqueueAll, Enqueue;
    var ps := Split(s.codec, Outgoing(command));
    SendConsistent(s, command, s.stream.start + ID_RANGE);
    KeysArePositions(s.stream.End(), ps);
    KeysAreNew(s, ps);
    EnqueueAtEnd(s.pending, Keys(s.stream.End(), ps));
  }

  /** A command was handed over: its positions are pending, behind the others. */
  ghost predicate NewKeys(s: Channel, s': Channel) {
    && s'.stream.start == s.stream.start && s.stream.End() <= s'.stream.End()
    && s'.receiver == s.receiver && s'.net == s.net && s'.acks == s.acks && s'.consumed == s.consumed
    && s'.ended == s.ended && s'.announced == s.announced
    && s.pending <= s'.pending && |s'.pending| == |s.pending| + s'.stream.End() - s.stream.End()
    && forall i {:trigger s'.pending[i]} :: |s.pending| <= i < |s'.pending| ==>
         s'.pending[i] == s.stream.End() + i - |s.pending|
  }

  lemma KeysAreNew(s: Channel, ps: seq<Packet>)
    requires AllWithin(s, s.pending) && Increasing(s.pending) && s.stream.End() + |ps| <= LAST_ID
    ensures Increasing(s.pending + Keys(s.stream.End(), ps))
  {
    KeysArePositions(s.stream.End(), ps);
  }

  lemma {:induction false} TransmitFirstIds(s: Channel, p: nat)
    requires FirstIds(s)
    ensures FirstIds(Apply(s, Transmit(p))) && TransmitIs(s, Apply(s, Transmit(p)), p)
  {
    hide Consistent, Numbered, Stream.Valid;
    QuietConsistent(s, Transmit(p), s.stream.start + ID_RANGE);
    if s.stream.start <= p < s.stream.End() {
      FiledUnderPosition(p, s.stream.packets[p - s.stream.start]);
    }
    if p in s.pending {
      var i :| 0 <= i < |s.pending| && s.pending[i] == p;
    }
  }

  /** A pending packet was put on the network. */
  ghost predicate TransmitIs(s: Channel, s': Channel, p: nat) {
    s' == s.(net := if p in s.pending then s.net + {p} else s.net)
  }

  /** A packet was handled: at most this position is new to the receiver, and at most it is acked. */
  ghost predicate ArriveIs(s: Channel, s': Channel, p: nat)
    requires p < ID_RANGE
  {
    && s'.pending == s.pending && s'.stream == s.stream && s'.commands == s.commands && s'.net == s.net
    && s'.codec == s.codec && s'.announced == s.announced && s.Next() <= s'.Next()
    && (forall q: nat {:trigger Got(s', q)} :: Got(s, q) ==> Got(s', q))
    && (forall q: nat {:trigger Got(s', q)} :: Got(s', q) ==> Got(s, q) || q == p)
    && (s'.acks == s.acks || s'.acks == s.acks.Sending(p))
    && (s'.acks != s.acks ==> (Got(s', p) <==> p < s.Next() + WINDOW))
    && (s.Next() - 32769 <= p < s.Next() + MAX_QUEUE_LEN || s.Next() + WINDOW <= p ==> s'.acks == s.acks.Sending(p))
    && (p < s.Next() - 32769 ==> s'.acks == s.acks)
    && (s'.ended.Some? <==> s.Next() + MAX_QUEUE_LEN <= p < s.Next() + WINDOW)
  }

  lemma {:induction false} ArriveFirstIds(s: Channel, p: nat)
    requires FirstIds(s) && s.ended.None? && p in s.net
    ensures s.stream.start <= p < s.stream.End() <= LAST_ID
    ensures FirstIds(Apply(s, Arrive(p))) && ArriveIs(s, Apply(s, Arrive(p)), p)
  {
    hide Consistent, InSync, Received, HandleUdp, Consumed, Stream.At, Apply, Sane, Prefixed;
    var n, end := s.Next(), s.stream.start + ID_RANGE;
    NextInRange(s);
    var n', re := ArriveConsistent(s, p, end);
    var s' := Apply(s, Arrive(p));
    ArrivedIs(s, p);
    NextIsOf(s, end);
    SaneOf(s, end);
    OfUnique(p, 0, p);
    FatalIsQueueFull(s.codec, s.stream, end, s.receiver, n, p, n', re, s.released);
    forall q: nat
      ensures Got(s, q) ==> Got(s', q)
      ensures Got(s', q) ==> Got(s, q) || q == p
    {
      assert Got(s, q) == Received(s.receiver, n, q);
      assert Got(s', q) == Received(s'.receiver, n', q);
    }
    NotUnencrypted(s.codec, s.stream, p);
    AtIsGenuine(s.stream, p);
    if n + WINDOW <= p {
      FarIsAcked(s.codec, s.receiver, n, s.stream.At(p));
      FarIsNotGot(s.codec, s.stream, end, n, s.receiver, s.released, p);
    } else if p < n - 32769 {
      LowestIsAckedIff(s.codec, s.receiver, n, s.stream.At(p));
    }
    AckedIs(s, p, n, n', re, end);
    SendingKeeps(s.acks, p);
  }

  /** Half a round of ids ahead, a packet counts as received long ago: it is acked, and not read. */
  lemma {:induction false} FarIsAcked(codec: Codec, r: Receiver, n: nat, w: Wire)
    requires r.next == Of(n) && n + WINDOW <= w.Position() < ID_RANGE
    ensures HandleUdp(codec, r, w).ack == Some(w.id) && HandleUdp(codec, r, w).receiver == r
            && Consumed(codec, r, w) == []
  {
    OfUnique(w.Position(), w.generation, w.id);
    OfUnique(n, 0, n);
    OfUnique(w.Position(), 0, w.Position());
  }

  /** Further behind, within one generation, it is taken for a packet of the next one and not acked. */
  lemma {:induction false} LowestIsAckedIff(codec: Codec, r: Receiver, n: nat, w: Wire)
    requires r.next == Of(n) && w.Position() < n < ID_RANGE && !w.packet.flags.unencrypted
    ensures HandleUdp(codec, r, w).ack.Some? <==> n - 32769 <= w.Position()
  {
    var p := w.Position();
    OfUnique(p, w.generation, w.id);
    OfUnique(n, 0, n);
    OfUnique(p, 0, p);
    FullIsOrderIsomorphism(PartialPacketId(w.generation, w.id), r.next, p);
  }

  lemma {:induction false} FarIsNotGot(
    codec: Codec, s: Stream, horizon: nat, n: nat, r: Receiver, released: seq<Packet>, p: nat)
    requires InSync(codec, s, horizon, n, r, released) && n + MAX_QUEUE_LEN <= p
    ensures !Received(r, n, p)
  {
    forall w {:trigger multiset(r.queue)[w]} | w in multiset(r.queue)
      ensures w.Position() != p
    {
      assert Waits(s, horizon, n, w);
    }
  }

  lemma {:induction false} NextInRange(s: Channel)
    requires FirstIds(s)
    ensures s.stream.start <= s.Next() <= s.stream.End() && !Got(s, s.Next())
            && Consistent(s, s.stream.start + ID_RANGE)
  {
    NextWithinEnd(s);
  }

  lemma AckedIs(s: Channel, p: nat, n: nat, n': nat, re: Reaction, horizon: nat)
    requires s.stream.start <= p < ID_RANGE
    requires GoodReaction(s.codec, s.stream, horizon, n, s.receiver, s.released, p, n', re)
    ensures re.ack.Some? ==> re.ack.value == p && (p < n + WINDOW ==> Received(re.receiver, n', p))
  {
    OfUnique(p, 0, p);
  }

  lemma {:induction false} AckFirstIds(s: Channel, k: nat)
    requires FirstIds(s) && IsRead(s, k)
    ensures FirstIds(Apply(s, AckArrives(k))) && AckIs(s, Apply(s, AckArrives(k)), k)
  {
    hide Consistent, AfterAck, AckEvent;
    var id := s.acks.sent[k];
    QuietConsistent(s, AckArrives(k), s.stream.start + ID_RANGE);
    ReadingKeeps(s.acks, s.acks.first + k);
    if s.pending != [] {
      AckedPending(s, id);
    } else {
      NothingPending(s, id);
    }
  }

  /** An ack was read: its id is not pending any more, and no other id left. */
  ghost predicate AckIs(s: Channel, s': Channel, k: nat)
    requires k < |s.acks.sent|
  {
    var id, event := s.acks.sent[k], AckEvent(s.pending, s.acks.sent[k], s.stream.End());
    && s' == s.(acks := s.acks.Reading(s.acks.first + k), pending := s'.pending,
                announced := if event.Some? then s.announced + [event.value] else s.announced)
    && s'.pending == AfterAck(s.pending, id)
    && (forall p: nat {:trigger p in s'.pending} :: p in s'.pending <==> p in s.pending && p != id)
    && (s'.pending != [] ==> s.pending != [] && s.pending[0] <= s'.pending[0])
  }

  lemma NothingPending(s: Channel, id: u16)
    requires s.pending == []
    ensures AfterAck(s.pending, id) == [] && AckEvent(s.pending, id, s.stream.End()) == None
  {
  }

  /** An ack removes the record of its own id and no other. */
  lemma AckedPending(s: Channel, id: u16)
    requires AllWithin(s, s.pending) && Increasing(s.pending) && s.stream.End() <= LAST_ID && s.pending != []
    ensures var pending' := AfterAck(s.pending, id);
      AllWithin(s, pending') && Increasing(pending')
      && (forall p: nat :: p in pending' <==> p in s.pending && p != id)
      && (pending' != [] ==> s.pending[0] <= pending'[0])
  {
    var target := AckTarget(s.pending[0], id);
    TargetIsOwnId(s.pending[0], id);
    MembersAfter(s.pending, target, id);
    var pending' := AfterAck(s.pending, id);
    forall i | 0 <= i < |pending'|
      ensures s.stream.start <= pending'[i] < s.stream.End()
    {
      assert pending'[i] in pending';
    }
  }

  lemma TargetIsOwnId(first: nat, id: u16)
    requires first < LAST_ID
    ensures if id >= first then AckTarget(first, id) == id else AckTarget(first, id) >= ID_RANGE
  {
    if id >= first {
      AckTargetIsNext(first, id);
    }
  }

  lemma MembersAfter(pending: seq<nat>, target: nat, id: nat)
    requires Increasing(pending) && pending != [] && forall i :: 0 <= i < |pending| ==> pending[i] < LAST_ID
    requires if id >= pending[0] then target == id else target >= ID_RANGE
    ensures Increasing(Deleted(pending, target))
    ensures forall p: nat :: p in Deleted(pending, target) <==> p in pending && p != id
    ensures Deleted(pending, target) != [] ==> pending[0] <= Deleted(pending, target)[0]
  {
    hide Deleted;
    DeletedMembers(pending, target);
    if Deleted(pending, target) != [] {
      assert Deleted(pending, target)[0] in pending;
    }
  }

  lemma {:induction false} IdleSteps(s: Channel, step: Step)
    requires (step.Arrive? && (step.p !in s.net || s.ended.Some?)) || (step.AckArrives? && !IsRead(s, step.k))
    ensures Apply(s, step) == s
  {
  }

  /** A forged packet of a far id is acked although nothing was received for it. */
  ghost predicate ForgeActs(s: Channel, s': Channel, w: Wire) {
    && s' == s.(acks := s'.acks) && (s'.acks == s.acks || s'.acks == s.acks.Sending(w.id))
    && (s.Next() + WINDOW <= w.id && s.ended.None? && Forged(s.receiver, w) ==> s'.acks == s.acks.Sending(w.id))
    && (s'.acks != s.acks ==> s.ended.None? && Forged(s.receiver, w) && (w.id < s.Next() || s.Next() + WINDOW <= w.id))
    && (w.id < s.Next() - 32769 ==> s'.acks == s.acks)
  }

  lemma {:induction false} ForgeFirstIds(s: Channel, w: Wire)
    requires FirstIds(s)
    ensures FirstIds(Apply(s, Forge(w))) && ForgeActs(s, Apply(s, Forge(w)), w)
  {
    hide Consistent, Apply, Forged;
    NextInRange(s);
    ForgeIs(s, w);
    QuietConsistent(s, Forge(w), s.stream.start + ID_RANGE);
    SendingKeeps(s.acks, w.id);
    if s.ended.None? {
      NextIsOf(s, s.stream.start + ID_RANGE);
      WindowOfFirstIds(s.Next(), w.id);
    }
  }

  /** Which ids are outside of the window, in the first generation. */
  lemma WindowOfFirstIds(n: nat, id: u16)
    requires n < ID_RANGE
    ensures var win := InReceiveWindow(Of(n), id);
      && (n <= id < n + WINDOW ==> win.inWindow) && (n + WINDOW <= id ==> !win.inWindow)
      && (id < n - 32769 ==> win.inWindow)
  {
    OfUnique(n, 0, n);
  }

  /** For every run below id 65535. */
  lemma {:induction false} StepFirstIds(s: Channel, step: Step)
    requires FirstIds(s) && Proper(s, step) && Apply(s, step).stream.End() <= LAST_ID
    ensures FirstIds(Apply(s, step))
  {
    hide FirstIds, Proper, Apply, ArriveIs, AckIs, NewKeys, TransmitIs, ForgeActs;
    match step
    case Send(command) => SendFirstIds(s, command);
    case Transmit(p) => TransmitFirstIds(s, p);
    case Arrive(p) =>
      if p in s.net && s.ended.None? { ArriveFirstIds(s, p); } else { IdleSteps(s, step); }
    case AckArrives(k) =>
      if IsRead(s, k) { AckFirstIds(s, k); } else { IdleSteps(s, step); }
    case Forge(w) => ForgeFirstIds(s, w);
  }

  lemma InitialFirstIds(codec: Codec, start: nat, acks: Acks)
    requires Lawful(codec) && start <= LAST_ID && acks.Fresh()
    ensures FirstIds(Initial(codec, start, acks))
  {
    InitialConsistent(codec, start, acks, start + ID_RANGE);
  }

  // ---------------------------------------------------------------- acks for packets that were received

  /** Whatever was acked has been released or kept. */
  ghost predicate AcksGot(s: Channel) {
    forall k {:trigger s.acks.sent[k]} :: 0 <= k < |s.acks.sent| ==> Got(s, s.acks.sent[k])
  }

  /** No packet arrives half a round of ids ahead of the expected one, and no forged one with such an id. */
  predicate NearArrival(s: Channel, step: Step) {
    && (step.Arrive? && step.p in s.net && s.ended.None? ==> step.p < s.Next() + WINDOW)
    && (step.Forge? && s.ended.None? && Forged(s.receiver, step.w) ==> step.w.id < s.Next() + WINDOW)
  }

  /** One step: exactly a packet that is not near is acked without having been received. */
  lemma {:induction false} StepAcksGotIff(s: Channel, step: Step)
    requires FirstIds(s) && AcksGot(s) && Proper(s, step) && Apply(s, step).stream.End() <= LAST_ID
    ensures AcksGot(Apply(s, step)) <==> NearArrival(s, step)
  {
    hide FirstIds, Proper, Apply, Got, Acks.Counted;
    var s' := Apply(s, step);
    match step
    case Send(command) =>
      SendFirstIds(s, command);
      assert forall p: nat {:trigger Got(s', p)} :: Got(s', p) == Got(s, p) by { SameGot(s, s'); }
    case Transmit(p) =>
      TransmitFirstIds(s, p);
      assert forall p: nat {:trigger Got(s', p)} :: Got(s', p) == Got(s, p) by { SameGot(s, s'); }
    case Arrive(p) =>
      if p in s.net && s.ended.None? {
        ArriveFirstIds(s, p);
        if s'.acks == s.acks.Sending(p) { assert s'.acks.sent[|s.acks.sent|] == p; }
        forall k | 0 <= k < |s.acks.sent|
          ensures s'.acks.sent[k] == s.acks.sent[k] && Got(s', s.acks.sent[k])
        {
          assert Got(s, s.acks.sent[k]);
        }
      } else {
        IdleSteps(s, step);
      }
    case AckArrives(k) =>
      if IsRead(s, k) {
        AckFirstIds(s, k);
        assert forall p: nat {:trigger Got(s', p)} :: Got(s', p) == Got(s, p) by { SameGot(s, s'); }
      } else {
        IdleSteps(s, step);
      }
    case Forge(w) =>
      ForgeFirstIds(s, w);
      ForgedIsGotIff(s, w);
      assert forall p: nat {:trigger Got(s', p)} :: Got(s', p) == Got(s, p) by { SameGot(s, s'); }
      if s'.acks == s.acks.Sending(w.id) { assert s'.acks.sent[|s.acks.sent|] == w.id; }
      assert forall k {:trigger s.acks.sent[k]} :: 0 <= k < |s.acks.sent| ==> s'.acks.sent[k] == s.acks.sent[k];
  }

  /** Of the ids outside of the window, exactly those behind were received. */
  lemma {:induction false} ForgedIsGotIff(s: Channel, w: Wire)
    requires FirstIds(s)
    ensures (w.id < s.Next() ==> Got(s, w.id)) && (s.Next() + WINDOW <= w.id ==> !Got(s, w.id))
  {
    if s.Next() + WINDOW <= w.id {
      FarIsNotGot(s.codec, s.stream, s.stream.start + ID_RANGE, s.Next(), s.receiver, s.released, w.id);
    }
  }

  lemma SameGot(s: Channel, s': Channel)
    requires s'.receiver == s.receiver && s'.Next() == s.Next()
    ensures forall p: nat {:trigger Got(s', p)} :: Got(s', p) == Got(s, p)
  {
  }

  /**
   * Exactly the runs in which no packet arrives half a round of ids ahead have only acks for packets that
   * were received, all the way.
   */
  lemma {:induction false} AcksGotIff(codec: Codec, start: nat, acks: Acks, steps: seq<Step>)
    requires Lawful(codec) && start <= LAST_ID && acks.Fresh()
    requires Always(Initial(codec, start, acks), steps, Proper)
    requires Run(Initial(codec, start, acks), steps).stream.End() <= LAST_ID
    ensures FirstIds(Run(Initial(codec, start, acks), steps))
    ensures AllAlong(Initial(codec, start, acks), steps, AcksGot)
       <==> Always(Initial(codec, start, acks), steps, NearArrival)
    decreases |steps|
  {
    hide FirstIds, Apply, Proper, Always, NearArrival, AcksGot, AllAlong;
    var s0 := Initial(codec, start, acks);
    if steps == [] {
      InitialFirstIds(codec, start, acks);
      NothingAcked(s0);
    } else {
      var front, step := steps[..|steps| - 1], steps[|steps| - 1];
      AlwaysFront(s0, steps, Proper);
      AlwaysFront(s0, steps, NearArrival);
      AllAlongFront(s0, steps, AcksGot);
      ApplyKeeps(Run(s0, front), step);
      AcksGotIff(codec, start, acks, front);
      StepFirstIds(Run(s0, front), step);
      if AllAlong(s0, front, AcksGot) {
        AllAlongEnd(s0, front, AcksGot);
        StepAcksGotIff(Run(s0, front), step);
      }
    }
  }

  lemma NothingAcked(s: Channel)
    requires s.acks.sent == []
    ensures AllAlong(s, [], AcksGot) && Always(s, [], NearArrival)
  {
  }

  /** Every state that a run goes through is of this kind. */
  ghost predicate AllAlong(s: Channel, steps: seq<Step>, ok: Channel -> bool) {
    forall k {:trigger Run(s, steps[..k])} :: 0 <= k <= |steps| ==> ok(Run(s, steps[..k]))
  }

  lemma AllAlongEnd(s: Channel, steps: seq<Step>, ok: Channel -> bool)
    requires AllAlong(s, steps, ok)
    ensures ok(Run(s, steps))
  {
    assert steps[..|steps|] == steps;
  }

  lemma AllAlongFront(s: Channel, steps: seq<Step>, ok: Channel -> bool)
    requires steps != []
    ensures AllAlong(s, steps, ok) <==> AllAlong(s, steps[..|steps| - 1], ok) && ok(Run(s, steps))
  {
    hide Run;
    var front := steps[..|steps| - 1];
    assert steps[..|steps|] == steps;
    assert forall k {:trigger front[..k]} :: 0 <= k <= |front| ==> front[..k] == steps[..k];
    if AllAlong(s, steps, ok) {
      forall k | 0 <= k <= |front|
        ensures ok(Run(s, front[..k]))
      {
        assert front[..k] == steps[..k];
      }
    }
    if AllAlong(s, front, ok) && ok(Run(s, steps)) {
      forall k | 0 <= k <= |steps|
        ensures ok(Run(s, steps[..k]))
      {
        if k < |steps| { assert front[..k] == steps[..k]; }
      }
    }
  }

  // ---------------------------------------------------------------- sound acks

  /** Sender and network agree with the receiver. */
  ghost predicate AckInvariant(s: Channel) {
    FirstIds(s) && AcksGot(s) && Accounted(s)
    && forall w {:trigger w in s.announced} :: w in s.announced ==> w < s.Next()
  }

  /** Every position is pending or received, and what was received has been on the network. */
  ghost predicate Accounted(s: Channel) {
    (forall p: nat {:trigger Got(s, p)} :: s.stream.start <= p < s.stream.End() ==> p in s.pending || Got(s, p))
    && (forall p: nat {:trigger Got(s, p)} :: s.stream.start <= p && Got(s, p) ==> p in s.net)
  }

  lemma {:induction false} SendAccounted(s: Channel, s': Channel)
    requires Accounted(s) && NewKeys(s, s')
    ensures Accounted(s')
  {
    hide Got;
    SameGot(s, s');
    forall p: nat | s.stream.start <= p < s'.stream.End()
      ensures p in s'.pending || Got(s', p)
    {
      if p >= s.stream.End() {
        assert s'.pending[|s.pending| + (p - s.stream.End())] == p;
      } else {
        assert Got(s', p) == Got(s, p);
        assert s'.pending[..|s.pending|] == s.pending;
      }
    }
  }

  lemma {:induction false} ArriveAccounted(s: Channel, s': Channel, p: nat)
    requires p < ID_RANGE && Accounted(s) && ArriveIs(s, s', p) && p in s.net
    ensures Accounted(s')
  {
    hide Got;
    forall q: nat | s.stream.start <= q < s.stream.End()
      ensures q in s'.pending || Got(s', q)
    {
      assert q in s.pending || Got(s, q);
      assert Got(s, q) ==> Got(s', q);
    }
  }

  lemma {:induction false} AckAccounted(s: Channel, s': Channel, k: nat)
    requires Accounted(s) && k < |s.acks.sent| && AckIs(s, s', k) && Got(s, s.acks.sent[k])
    ensures Accounted(s')
  {
    hide Got, AfterAck, AckEvent;
    SameGot(s, s');
    forall p: nat | s.stream.start <= p < s.stream.End()
      ensures p in s'.pending || Got(s', p)
    {
      assert Got(s', p) == Got(s, p);
      assert p in s.pending || Got(s, p);
    }
  }

  /** What is announced is behind everything pending, so all of it was received. */
  lemma {:induction false} AnnouncedKept(s: Channel, s': Channel, k: nat)
    requires FirstIds(s) && Accounted(s') && k < |s.acks.sent| && AckIs(s, s', k)
    requires forall w {:trigger w in s.announced} :: w in s.announced ==> w < s.Next()
    ensures forall w {:trigger w in s'.announced} :: w in s'.announced ==> w < s'.Next()
  {
    hide AfterAck, AckEvent, Got;
    var event := AckEvent(s.pending, s.acks.sent[k], s.stream.End());
    NextInRange(s);
    if event.Some? {
      AckEventIsCumulative(s.pending, s.acks.sent[k], s.stream.End());
      SameGot(s, s');
      EverythingGot(s', event.value);
    }
  }

  /** If everything up to w has left the queue, the receiver is beyond w. */
  lemma EverythingGot(s: Channel, w: int)
    requires Accounted(s) && !Got(s, s.Next()) && s.stream.start <= s.Next()
    requires w < s.stream.End() && forall p: nat {:trigger p in s.pending} :: p in s.pending ==> w < p
    ensures w < s.Next()
  {
    assert s.Next() <= w ==> s.Next() in s.pending || Got(s, s.Next());
  }

  lemma {:induction false} StepKeeps(s: Channel, step: Step)
    requires AckInvariant(s) && Proper(s, step) && NearArrival(s, step)
    requires Apply(s, step).stream.End() <= LAST_ID
    ensures AckInvariant(Apply(s, step))
  {
    hide FirstIds, Proper, Apply, Got, Accounted, AcksGot, Acks.Counted, AckEvent, AfterAck;
    var s' := Apply(s, step);
    StepFirstIds(s, step);
    StepAcksGotIff(s, step);
    match step
    case Send(command) =>
      SendFirstIds(s, command);
      SendAccounted(s, s');
    case Transmit(p) =>
      TransmitFirstIds(s, p);
      TransmitAccounted(s, s', p);
    case Arrive(p) =>
      if p in s.net && s.ended.None? {
        ArriveFirstIds(s, p);
        ArriveAccounted(s, s', p);
      } else {
        IdleSteps(s, step);
      }
    case AckArrives(k) =>
      if IsRead(s, k) {
        AckFirstIds(s, k);
        AckedGot(s, k);
        AckAccounted(s, s', k);
        AnnouncedKept(s, s', k);
      } else {
        IdleSteps(s, step);
      }
    case Forge(w) =>
      ForgeFirstIds(s, w);
      ForgeAccounted(s, s', w);
  }

  lemma ForgeAccounted(s: Channel, s': Channel, w: Wire)
    requires Accounted(s) && ForgeActs(s, s', w)
    ensures Accounted(s')
  {
    hide Got;
    SameGot(s, s');
  }

  lemma TransmitAccounted(s: Channel, s': Channel, p: nat)
    requires Accounted(s) && TransmitIs(s, s', p)
    ensures Accounted(s')
  {
    hide Got;
    SameGot(s, s');
  }

  lemma AckedGot(s: Channel, k: nat)
    requires AcksGot(s) && k < |s.acks.sent|
    ensures Got(s, s.acks.sent[k])
  {
  }

  lemma {:induction false} RunKeeps(codec: Codec, start: nat, acks: Acks, steps: seq<Step>)
    requires Lawful(codec) && start <= LAST_ID && acks.Fresh()
    requires Always(Initial(codec, start, acks), steps, Proper)
             && Always(Initial(codec, start, acks), steps, NearArrival)
    requires Run(Initial(codec, start, acks), steps).stream.End() <= LAST_ID
    ensures AckInvariant(Run(Initial(codec, start, acks), steps))
    decreases |steps|
  {
    hide AckInvariant, Apply, Proper, Always;
    var s0 := Initial(codec, start, acks);
    if steps == [] {
      InitialInvariant(codec, start, acks);
    } else {
      var front, step := steps[..|steps| - 1], steps[|steps| - 1];
      AlwaysFront(s0, steps, Proper);
      AlwaysFront(s0, steps, NearArrival);
      ApplyKeeps(Run(s0, front), step);
      RunKeeps(codec, start, acks, front);
      StepKeeps(Run(s0, front), step);
    }
  }

  lemma InitialInvariant(codec: Codec, start: nat, acks: Acks)
    requires Lawful(codec) && start <= LAST_ID && acks.Fresh()
    ensures AckInvariant(Initial(codec, start, acks))
  {
    InitialFirstIds(codec, start, acks);
  }

  /**
   * Ack soundness: in every reachable state, a position that is no longer pending has been released
   * or kept by the receiver, and an announced ack means that everything up to it was consumed.
   */
  lemma {:induction false} AcksAreSound(codec: Codec, start: nat, acks: Acks, steps: seq<Step>)
    requires Lawful(codec) && start <= LAST_ID && acks.Fresh()
    requires Always(Initial(codec, start, acks), steps, Proper)
             && Always(Initial(codec, start, acks), steps, NearArrival)
    requires Run(Initial(codec, start, acks), steps).stream.End() <= LAST_ID
    ensures var s := Run(Initial(codec, start, acks), steps);
      (forall p: nat {:trigger Got(s, p)} :: s.stream.start <= p < s.stream.End() && p !in s.pending ==> Got(s, p))
      && (forall w {:trigger w in s.announced} :: w in s.announced ==> w < s.Next())
  {
    hide Always;
    RunKeeps(codec, start, acks, steps);
  }

  /**
   * The id returned by `send_packet` is that of the last fragment. Once it is announced, the
   * other side has released this command and all before it: `steps` led up to the return of
   * `send_packet`, `more` is what happened since.
   */
  lemma {:induction false} AnnouncedMeansReleased(codec: Codec, start: nat, acks: Acks, steps: seq<Step>,
      more: seq<Step>, w: int)
    requires Lawful(codec) && start <= LAST_ID && acks.Fresh()
    requires Always(Initial(codec, start, acks), steps + more, Proper)
    requires Always(Initial(codec, start, acks), steps + more, NearArrival)
    requires Run(Initial(codec, start, acks), steps + more).stream.End() <= LAST_ID
    requires w in Run(Initial(codec, start, acks), steps + more).announced
    requires w >= Run(Initial(codec, start, acks), steps).stream.End() - 1
    ensures Contents(Run(Initial(codec, start, acks), steps).commands)
            <= Contents(Run(Initial(codec, start, acks), steps + more).released)
  {
    hide AckInvariant, Run, Contents, Always, Prefixed;
    var s0 := Initial(codec, start, acks);
    var was, s := Run(s0, steps), Run(s0, steps + more);
    RunKeeps(codec, start, acks, steps + more);
    RunGrows(s0, steps, more);
    AlwaysOfPrefix(s0, steps, more, Proper);
    AlwaysOfPrefix(s0, steps, more, NearArrival);
    RunKeeps(codec, start, acks, steps);
    FromInvariant(was);
    FromInvariant(s);
    ReleasedBeyond(was, s);
  }

  lemma {:induction false} FromInvariant(s: Channel)
    requires AckInvariant(s)
    ensures Prefixed(s) && forall w {:trigger w in s.announced} :: w in s.announced ==> w < s.Next()
  {
  }

  /** The later state has consumed the whole earlier stream, so it has released its commands. */
  lemma {:induction false} ReleasedBeyond(was: Channel, s: Channel)
    requires Prefixed(was) && Prefixed(s)
    requires was.codec == s.codec && was.stream.start == s.stream.start
    requires was.stream.packets <= s.stream.packets && was.stream.End() <= s.Next()
    ensures Contents(was.commands) <= Contents(s.released)
  {
    hide Sendable, Stream.Valid, Follows;
    NextWithinEnd(s);
    StreamRoundTrip(was.codec, was.commands);
    LaterReleased(s.codec, was.stream, s.stream, s.Next());
    ContentsOfPrefix(Assemble(s.codec, NOTHING, was.stream.packets).released, s.released);
  }

  lemma LaterReleased(codec: Codec, early: Stream, late: Stream, n: nat)
    requires early.start == late.start && early.packets <= late.packets && early.End() <= n <= late.End()
    ensures Assemble(codec, NOTHING, early.packets).released <= late.Before(codec, n).released
  {
    hide Assemble;
    var k, j := |early.packets|, n - late.start;
    assert late.packets[..j] == early.packets + late.packets[k..j];
    AssembleConcat(codec, NOTHING, early.packets, late.packets[k..j]);
    AssembleExtends(codec, Assemble(codec, NOTHING, early.packets), late.packets[k..j]);
  }

  lemma ApplyGrows(s: Channel, step: Step)
    ensures Apply(s, step).codec == s.codec && Apply(s, step).stream.start == s.stream.start
    ensures s.stream.packets <= Apply(s, step).stream.packets
  {
  }

  lemma {:induction false} RunGrows(s: Channel, steps: seq<Step>, more: seq<Step>)
    ensures Run(s, steps + more).codec == Run(s, steps).codec
    ensures Run(s, steps + more).stream.start == Run(s, steps).stream.start
    ensures Run(s, steps).stream.packets <= Run(s, steps + more).stream.packets
    decreases |more|
  {
    hide Apply;
    if more == [] {
      assert steps + more == steps;
    } else {
      var k := |more| - 1;
      assert (steps + more)[..|steps| + k] == steps + more[..k];
      RunGrows(s, steps, more[..k]);
      ApplyGrows(Run(s, steps + more[..k]), more[k]);
    }
  }

  lemma AlwaysOfPrefix(s: Channel, steps: seq<Step>, more: seq<Step>, ok: (Channel, Step) -> bool)
    requires Always(s, steps + more, ok)
    ensures Always(s, steps, ok)
  {
    forall k | 0 <= k < |steps|
      ensures ok(Run(s, steps[..k]), steps[k])
    {
      assert (steps + more)[..k] == steps[..k] && (steps + more)[k] == steps[k];
    }
  }

  /**
   * Beyond the first ids: while a record is pending, the ack of its packet finds it, unless the id is
   * 65535 and something that was sent no later is pending as well. (That record is filed under the
   * generation after its own.)
   */
  lemma AckFindsRecordIff(first: nat, p: nat, packet: Packet)
    requires first <= Numbered(p, packet).Key() && p < first + ID_RANGE && p < FULL_RANGE - 2 * ID_RANGE
    ensures AckTarget(first, p % ID_RANGE) == Numbered(p, packet).Key() <==> p % ID_RANGE != LAST_ID || p < first
  {
    FiledUnderPosition(p, packet);
    if p % ID_RANGE == LAST_ID {
      if p < first {
        AckTargetIsNext(first, p + ID_RANGE);
      } else {
        AckTargetIsNext(first, p);
      }
    } else {
      AckTargetIsNext(first, p);
    }
  }
}
