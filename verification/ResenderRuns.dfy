/**
 * Whole runs of the resender: packets of both types are handed over, acks arrive and polls send and
 * resend, in any order and with any times. Nothing pending is ever lost from sight, and as long as the
 * ids of each type ascend, the index between queues and heap is exact and packets go out in order.
 */
module ResenderRuns {
  import opened Prelude
  import opened PacketIds
  import opened Fragmentation
  import opened CommandCodec
  import opened Resender
  import opened CommandChannel

  /** A poll is any number of rounds, each at its own instant. */
  datatype Operation =
    | SendPacket(k: Key, now: Time)
    | AckPacket(t: QueueType, ackId: u16, outgoing: nat, now: Time)
    | PollRound(now: Time, timeout: nat)

  /** For each type the number after the highest id handed over. */
  function NextAfter(next: Indices, op: Operation): Indices {
    if op.SendPacket? then NextIdsAfter(next, op.k) else next
  }

  function NextIds(next: Indices, ops: seq<Operation>): Indices {
    if ops == [] then next else NextAfter(NextIds(next, ops[..|ops| - 1]), ops[|ops| - 1])
  }

  /** What is handed over is pending until its ack arrives. */
  ghost function PendingAfter(keys: set<Key>, op: Operation): set<Key> {
    match op
    case SendPacket(k, _) => keys + {k}
    case AckPacket(t, ackId, _, _) => keys - Acked(keys, t, ackId)
    case PollRound(_, _) => keys
  }

  ghost function Pending(keys: set<Key>, ops: seq<Operation>): set<Key> {
    if ops == [] then keys else PendingAfter(Pending(keys, ops[..|ops| - 1]), ops[|ops| - 1])
  }

  /** No id is below one that was handed over before. */
  predicate Ascending(next: Indices, ops: seq<Operation>) {
    forall i {:trigger ops[i]} :: 0 <= i < |ops| && ops[i].SendPacket? ==>
      NextIds(next, ops[..i]).Get(ops[i].k.typ) <= ops[i].k.id
  }

  lemma AscendingFront(next: Indices, ops: seq<Operation>)
    requires ops != []
    ensures var front, op := ops[..|ops| - 1], ops[|ops| - 1];
      Ascending(next, ops) <==>
      Ascending(next, front) && (op.SendPacket? ==> NextIds(next, front).Get(op.k.typ) <= op.k.id)
  {
    var front := ops[..|ops| - 1];
    assert forall i {:trigger ops[i]} :: 0 <= i < |front| ==> front[..i] == ops[..i] && front[i] == ops[i];
    if Ascending(next, ops) {
      forall i | 0 <= i < |front| && front[i].SendPacket?
        ensures NextIds(next, front[..i]).Get(front[i].k.typ) <= front[i].k.id
      {
        assert ops[i] == front[i];
      }
    }
  }

  // ---------------------------------------------------------------- times of handing over

  /** When the last packet was handed over. */
  function ClockAfter(clock: Time, op: Operation): Time {
    if op.SendPacket? then op.now else clock
  }

  function ClockAt(clock: Time, ops: seq<Operation>): Time {
    if ops == [] then clock else ClockAfter(ClockAt(clock, ops[..|ops| - 1]), ops[|ops| - 1])
  }

  /** Time does not run backwards. */
  predicate Timely(clock: Time, ops: seq<Operation>) {
    forall i {:trigger ops[i]} :: 0 <= i < |ops| && ops[i].SendPacket? ==> ClockAt(clock, ops[..i]) <= ops[i].now
  }

  /** What was never sent was handed over by then. */
  ghost predicate HandedOverBy(full: map<Key, SendRecord>, clock: Time) {
    forall k {:trigger full[k]} :: k in full && full[k].id.tries == 0 ==> full[k].id.last <= clock
  }

  function Count(log: seq<SendRecordId>, k: Key): nat {
    if log == [] then 0 else Count(log[..|log| - 1], k) + if log[|log| - 1].key == k then 1 else 0
  }

  function TriesOf(full: map<Key, SendRecord>, k: Key): nat {
    if k in full then full[k].id.tries else 0
  }

  /** The log holds everything that was sent: every record was sent as often as it says, each time with its tries. */
  ghost predicate Tallied(was: map<Key, SendRecord>, log: seq<SendRecordId>, full: map<Key, SendRecord>) {
    && (forall i {:trigger log[i]} :: 0 <= i < |log| ==>
         log[i].tries == TriesOf(was, log[i].key) + Count(log[..i], log[i].key))
    && forall k {:trigger full[k]} :: k in full ==> full[k].id.tries == TriesOf(was, k) + Count(log, k)
  }

  lemma {:induction false} NotLogged(log: seq<SendRecordId>, k: Key)
    requires forall i {:trigger log[i]} :: 0 <= i < |log| ==> log[i].key != k
    ensures Count(log, k) == 0
  {
    if log != [] { NotLogged(log[..|log| - 1], k); }
  }

  lemma TalliedOneMore(
    was: map<Key, SendRecord>, log: seq<SendRecordId>, full: map<Key, SendRecord>, e: SendRecordId, now: Time)
    requires Tallied(was, log, full) && e.key in full && full[e.key].id == e
    ensures Tallied(was, log + [e], Renewed(full, e, now))
  {
    var more := log + [e];
    assert more[..|log|] == log;
    forall i {:trigger more[i]} | 0 <= i < |more|
      ensures more[i].tries == TriesOf(was, more[i].key) + Count(more[..i], more[i].key)
    {
      if i < |log| { assert more[..i] == log[..i] && more[i] == log[i]; }
    }
  }

  /** Ids, times and what was sent up to now go together. */
  ghost predicate OnSchedule(
    was: map<Key, SendRecord>, q: Queues, next: Indices, log: seq<SendRecordId>, clock: Time)
  {
    && Tallied(was, log, q.full) && (forall k {:trigger k in was} :: k in was ==> k.id < next.Get(k.typ))
    && Indexed(q) && Below(q, next) && Orderly(q.full) && HandedOverBy(q.full, clock)
    && FreshAscend(log) && FreshAhead(log, q.full)
    && forall i {:trigger log[i]} :: 0 <= i < |log| ==> log[i].key.id < next.Get(log[i].key.typ)
  }

  lemma HandedOver(
    was: map<Key, SendRecord>, q: Queues, r: Queues, k: Key, now: Time, next: Indices, log: seq<SendRecordId>,
    clock: Time, window: nat)
    requires OnSchedule(was, q, next, log, clock) && next.Get(k.typ) <= k.id && clock <= now
    requires FilledUp(Insert(q, k, now), r, window) && Indexed(r) && Below(r, NextIdsAfter(next, k))
    ensures OnSchedule(was, r, NextIdsAfter(next, k), log, now)
  {
    hide Indexed, Fill, Extends, Count;
    assert r.full == q.full[k := SendRecord(now, SendRecordId(now, 0, k))] by { FullOfInsert(q, r, k, now, window); }
    BelowIds(q, next);
    NotLogged(log, k);
  }

  lemma FullOfInsert(q: Queues, r: Queues, k: Key, now: Time, window: nat)
    requires FilledUp(Insert(q, k, now), r, window)
    ensures r.full == q.full[k := SendRecord(now, SendRecordId(now, 0, k))]
  {
    hide Fill;
  }

  lemma BelowIds(q: Queues, next: Indices)
    requires Below(q, next)
    ensures forall k {:trigger q.full[k]} :: k in q.full ==> k.id < next.Get(k.typ)
  {
  }

  lemma FewerPending(
    was: map<Key, SendRecord>, q: Queues, r: Queues, next: Indices, log: seq<SendRecordId>, clock: Time)
    requires OnSchedule(was, q, next, log, clock) && Indexed(r) && Below(r, next)
    requires r.full.Keys <= q.full.Keys && forall k {:trigger r.full[k]} :: k in r.full ==> r.full[k] == q.full[k]
    ensures OnSchedule(was, r, next, log, clock)
  {
    hide Indexed, Below;
  }

  lemma RoundOnSchedule(
    was: map<Key, SendRecord>, q: Queues, r: Queues, round: Round, now: Time, rto: Time, window: nat,
    next: Indices, log: seq<SendRecordId>, clock: Time)
    requires OnSchedule(was, q, next, log, clock) && Indexed(r) && Below(r, next)
    requires round.Dropped? ==> DroppedTop(q, r, round.entry, window)
    requires round.Sent? ==> SentTop(q, r, round.entry, now, rto, window)
    requires round.Ended? ==> r == q
    ensures OnSchedule(was, r, next, log + SentIn(round), clock)
  {
    hide Indexed, IsTop, Fill, Extends, Tallied;
    match round
    case Sent(e) =>
      SentInOrder(q, r, e, log, now, rto, window);
      EntryBelow(q, e, next);
      TopIsRecord(q, e);
      TalliedOneMore(was, log, q.full, e, now);
      assert forall i {:trigger (log + [e])[i]} ::
          0 <= i <= |log| ==> (log + [e])[i] == if i < |log| then log[i] else e;
    case _ =>
      FullStays(q, r, round, window);
      assert log + [] == log;
  }

  lemma FullStays(q: Queues, r: Queues, round: Round, window: nat)
    requires round.Dropped? ==> DroppedTop(q, r, round.entry, window)
    requires round.Ended? ==> r == q
    requires !round.Sent?
    ensures r.full == q.full
  {
    hide IsTop, Fill;
  }

  lemma EntryBelow(q: Queues, e: SendRecordId, next: Indices)
    requires Below(q, next) && IsTop(q.heap, e)
    ensures e.key.id < next.Get(e.key.typ)
  {
  }

  function SentIn(round: Round): seq<SendRecordId> {
    if round.Sent? then [round.entry] else []
  }

  // ---------------------------------------------------------------- one operation after the other

  /** One operation, and what it sends. */
  method Perform(
    r: Resender, op: Operation, ghost was: map<Key, SendRecord>, ghost log: seq<SendRecordId>, ghost clock: Time)
    returns (ghost sent: seq<SendRecordId>)
    requires r.Valid()
    modifies r
    ensures r.Valid() && r.nextIds == NextAfter(old(r.nextIds), op)
    ensures r.fullSendQueue.Keys == PendingAfter(old(r.fullSendQueue.Keys), op)
    ensures old(r.Exact()) && (op.SendPacket? ==> old(r.nextIds).Get(op.k.typ) <= op.k.id) ==> r.Exact()
    ensures old(OnSchedule(was, r.State(), r.nextIds, log, clock))
            && (op.SendPacket? ==> old(r.nextIds).Get(op.k.typ) <= op.k.id && clock <= op.now) ==>
              OnSchedule(was, r.State(), r.nextIds, log + sent, ClockAfter(clock, op))
  {
    hide Kept, Indexed, Below, Live, FilledUp, Lists, NothingFrom, DroppedTop, SentTop, NothingDue, PendingIds, Rto,
         AckEvent, AfterAck, OnSchedule, Foremost, Outcome;
    ghost var before, next := r.State(), r.nextIds;
    ghost var scheduled := OnSchedule(was, before, next, log, clock);
    if scheduled { ScheduledIsIndexed(was, before, next, log, clock); }
    sent := [];
    match op
    case SendPacket(k, now) =>
      ghost var inserted := Insert(before, k, now);
      ghost var window := r.SendPacket(k, now);
      FilledUpExtends(inserted, r.State(), window);
      if scheduled && next.Get(k.typ) <= k.id && clock <= now {
        HandedOver(was, before, r.State(), k, now, next, log, clock, window);
      }
      assert log + [] == log;
    case AckPacket(t, ackId, outgoing, now) =>
      var _ := r.AckPacket(t, ackId, outgoing, now);
      if scheduled { FewerPending(was, before, r.State(), next, log, clock); }
      assert log + [] == log;
    case PollRound(now, timeout) =>
      ghost var rto := Rto(r.srtt, r.srttDev);
      var round, top, window := r.PollRound(now, timeout);
      RoundKeepsKeys(before, r.State(), round, now, rto, window);
      sent := SentIn(round);
      if scheduled { RoundOnSchedule(was, before, r.State(), round, now, rto, window, next, log, clock); }
  }

  lemma ScheduledIsIndexed(was: map<Key, SendRecord>, q: Queues, next: Indices, log: seq<SendRecordId>, clock: Time)
    requires OnSchedule(was, q, next, log, clock)
    ensures Indexed(q)
  {
  }

  /** A round neither adds nor removes a record. */
  lemma RoundKeepsKeys(q: Queues, r: Queues, round: Round, now: Time, rto: Time, window: nat)
    requires round.Dropped? ==> DroppedTop(q, r, round.entry, window)
    requires round.Sent? ==> SentTop(q, r, round.entry, now, rto, window)
    requires round.Ended? ==> r == q
    ensures r.full.Keys == q.full.Keys
  {
    hide IsTop;
  }

  /**
   * Any run: nothing gets lost, and the index stays exact if ids ascend. If time does not run backwards either,
   * packets of each type are sent for the first time in the order of their ids, none before a lower one
   * that is pending. The log holds everything that was sent.
   */
  method Operate(r: Resender, ops: seq<Operation>, ghost clock: Time) returns (ghost log: seq<SendRecordId>)
    requires r.Valid()
    modifies r
    ensures r.Valid() && r.nextIds == NextIds(old(r.nextIds), ops)
    ensures r.fullSendQueue.Keys == Pending(old(r.fullSendQueue.Keys), ops)
    ensures old(r.Exact()) && Ascending(old(r.nextIds), ops) ==> r.Exact()
    ensures old(r.Exact() && Orderly(r.fullSendQueue) && HandedOverBy(r.fullSendQueue, clock))
            && Ascending(old(r.nextIds), ops) && Timely(clock, ops) ==>
              && FreshAscend(log) && FreshAhead(log, r.fullSendQueue)
              && Tallied(old(r.fullSendQueue), log, r.fullSendQueue)
  {
    hide OnSchedule, Tallied, Orderly, HandedOverBy, FreshAscend, FreshAhead, Kept, Indexed, Below, Live;
    log := [];
    ghost var was := r.fullSendQueue;
    ghost var good := r.Exact() && Orderly(r.fullSendQueue) && HandedOverBy(r.fullSendQueue, clock)
                      && Ascending(r.nextIds, ops) && Timely(clock, ops);
    if good { ScheduledAtFirst(r.State(), r.nextIds, clock); }
    for i := 0 to |ops|
      invariant r.Valid() && r.nextIds == NextIds(old(r.nextIds), ops[..i])
      invariant r.fullSendQueue.Keys == Pending(old(r.fullSendQueue.Keys), ops[..i])
      invariant old(r.Exact()) && Ascending(old(r.nextIds), ops) ==> r.Exact()
      invariant good ==> OnSchedule(was, r.State(), r.nextIds, log, ClockAt(clock, ops[..i]))
    {
      assert ops[..i + 1][..i] == ops[..i];
      ghost var sent := Perform(r, ops[i], was, log, ClockAt(clock, ops[..i]));
      log := log + sent;
    }
    assert ops[..|ops|] == ops;
    if good { InOrderOf(was, r.State(), r.nextIds, log, ClockAt(clock, ops)); }
  }

  lemma ScheduledAtFirst(q: Queues, next: Indices, clock: Time)
    requires Indexed(q) && Below(q, next) && Orderly(q.full) && HandedOverBy(q.full, clock)
    ensures OnSchedule(q.full, q, next, [], clock)
  {
  }

  lemma InOrderOf(was: map<Key, SendRecord>, q: Queues, next: Indices, log: seq<SendRecordId>, clock: Time)
    requires OnSchedule(was, q, next, log, clock)
    ensures FreshAscend(log) && FreshAhead(log, q.full) && Tallied(was, log, q.full)
  {
  }

  // ---------------------------------------------------------------- ids of a stream

  /** The ids of a type, in the order in which they are handed over. */
  function Sends(ops: seq<Operation>, t: QueueType): seq<nat> {
    if ops == [] then []
    else
      var before, op := Sends(ops[..|ops| - 1], t), ops[|ops| - 1];
      if op.SendPacket? && op.k.typ == t then before + [op.k.id] else before
  }

  predicate IncreasingFrom(first: nat, ids: seq<nat>) {
    Increasing(ids) && (ids != [] ==> first <= ids[0])
  }

  lemma IncreasingFront(first: nat, ids: seq<nat>, id: nat)
    ensures IncreasingFrom(first, ids + [id]) <==>
            IncreasingFrom(first, ids) && (if ids == [] then first else ids[|ids| - 1] + 1) <= id
  {
    var more := ids + [id];
    assert forall i {:trigger ids[i]} :: 0 <= i < |ids| ==> more[i] == ids[i];
    assert more[|ids|] == id;
    if Increasing(more) {
      forall i, j | 0 <= i < j < |ids|
        ensures ids[i] < ids[j]
      {
        assert more[i] < more[j];
      }
    }
  }

  /** Ids ascend if and only if those of each type do; how the two types alternate does not matter. */
  lemma {:induction false} AscendingIff(next: Indices, ops: seq<Operation>)
    ensures Ascending(next, ops) <==>
            IncreasingFrom(next.command, Sends(ops, Command)) && IncreasingFrom(next.low, Sends(ops, CommandLow))
    ensures Ascending(next, ops) ==> forall t {:trigger Sends(ops, t)} ::
              NextIds(next, ops).Get(t) ==
              if Sends(ops, t) == [] then next.Get(t) else Sends(ops, t)[|Sends(ops, t)| - 1] + 1
  {
    if ops != [] {
      var front, op := ops[..|ops| - 1], ops[|ops| - 1];
      AscendingIff(next, front);
      AscendingFront(next, ops);
      if op.SendPacket? {
        IncreasingFront(next.Get(op.k.typ), Sends(front, op.k.typ), op.k.id);
      }
    }
  }

  predicate IsLastId(p: nat) {
    p % ID_RANGE == ID_RANGE - 1
  }

  lemma OneLastId(p: nat)
    ensures IsLastId(p) ==> !IsLastId(p + 1)
  {
  }

  /** Of some positions from n on, only the highest one may have the id 65535. */
  predicate NothingAfterLastId(n: nat, count: nat) {
    forall p: nat {:trigger IsLastId(p)} :: n <= p < n + count - 1 ==> !IsLastId(p)
  }

  function FiledAt(p: nat): nat {
    if IsLastId(p) then p + ID_RANGE else p
  }

  lemma KeysAreFiled(n: nat, ps: seq<Packet>)
    requires n + |ps| <= FULL_RANGE - ID_RANGE
    ensures forall i {:trigger Keys(n, ps)[i]} :: 0 <= i < |ps| ==> Keys(n, ps)[i] == FiledAt(n + i)
  {
    hide Numbered;
    forall i | 0 <= i < |ps|
      ensures Keys(n, ps)[i] == FiledAt(n + i)
    {
      FiledUnderPosition(n + i, ps[i]);
    }
  }

  /** The keys under which the packets of a stream are filed increase up to the first id 65535, and no further. */
  lemma {:induction false} KeysIncreaseIff(n: nat, ps: seq<Packet>)
    requires n + |ps| <= FULL_RANGE - ID_RANGE
    ensures IncreasingFrom(n, Keys(n, ps)) <==> NothingAfterLastId(n, |ps|)
  {
    hide IsLastId, Keys;
    KeysAreFiled(n, ps);
    var keys := Keys(n, ps);
    assert |keys| == |ps|;
    if p: nat :| n <= p < n + |ps| - 1 && IsLastId(p) {
      OneLastId(p);
      assert keys[p - n] == FiledAt(p) && keys[p - n + 1] == FiledAt(p + 1);
      assert keys[p - n + 1] < keys[p - n];
      assert !Increasing(keys);
    } else {
      assert forall i {:trigger keys[i]} :: 0 <= i < |keys| - 1 ==> keys[i] == n + i;
    }
  }

  /**
   * If the packets of two streams are handed over in order, ids ascend if and only if nothing comes after an
   * id 65535. As long as they do, the index stays exact.
   */
  lemma {:induction false} StreamsAscendIff(
    next: Indices, ops: seq<Operation>, c: nat, cs: seq<Packet>, l: nat, ls: seq<Packet>)
    requires next.command <= c && next.low <= l
    requires c + |cs| <= FULL_RANGE - ID_RANGE && l + |ls| <= FULL_RANGE - ID_RANGE
    requires Sends(ops, Command) == Keys(c, cs) && Sends(ops, CommandLow) == Keys(l, ls)
    ensures Ascending(next, ops) <==> NothingAfterLastId(c, |cs|) && NothingAfterLastId(l, |ls|)
  {
    hide Keys, Ascending, NothingAfterLastId;
    AscendingIff(next, ops);
    KeysIncreaseIff(c, cs);
    KeysIncreaseIff(l, ls);
    KeysStart(c, cs);
    KeysStart(l, ls);
  }

  lemma KeysStart(n: nat, ps: seq<Packet>)
    requires n + |ps| <= FULL_RANGE - ID_RANGE
    ensures ps != [] ==> |Keys(n, ps)| > 0 && n <= Keys(n, ps)[0]
  {
    hide Keys;
    KeysAreFiled(n, ps);
  }
}
