/**
 * The resender: commands wait in an ordered queue until they are acked, and a priority
 * heap, limited by the send window, says which one is sent next. Packet ids are positions
 * (their order is the order of ids, see PacketIds); times are in nanoseconds.
 */
module Resender {
  import opened Prelude
  import opened PacketIds

  type Time = int

  datatype QueueType = Command | CommandLow

  /** The key of a record in `full_send_queue`. */
  datatype Key = Key(typ: QueueType, id: nat)

  datatype SendRecordId = SendRecordId(last: Time, tries: nat, key: Key) {
    /** `Ord`: never sent first, then the oldest, then the lowest id. Types are not compared. */
    predicate Above(other: SendRecordId) {
      if tries == 0 && other.tries != 0 then true
      else if tries != 0 && other.tries == 0 then false
      else last < other.last || (last == other.last && key.id < other.key.id)
    }

    /** Time to (re)send: never sent, or sent at least a retransmission timeout ago. */
    predicate Due(now: Time, rto: Time) {
      tries == 0 || last <= now - rto
    }

    /** Sent once more. */
    function Sent(now: Time): SendRecordId {
      SendRecordId(now, tries + 1, key)
    }
  }

  datatype SendRecord = SendRecord(sent: Time, id: SendRecordId)

  datatype Indices = Indices(command: nat, low: nat) {
    function Get(t: QueueType): nat {
      if t == Command then command else low
    }

    function Set(t: QueueType, v: nat): Indices {
      if t == Command then this.(command := v) else this.(low := v)
    }
  }

  /** `send_queue`, `full_send_queue` and `send_queue_indices`. */
  datatype Queues = Queues(heap: multiset<SendRecordId>, full: map<Key, SendRecord>, indices: Indices)

  /** Of each type, the pending records below the index are in the heap. */
  ghost predicate Kept(q: Queues) {
    Keyed(q.full) && Complete(q)
  }

  /**
   * Exactly these are, once and with their current tries and time; entries without a record
   * are left over from acks.
   */
  ghost predicate Indexed(q: Queues) {
    Kept(q) && BelowIndex(q.heap, q.indices) && Current(q.heap, q.full)
  }

  ghost predicate Keyed(full: map<Key, SendRecord>) {
    forall k {:trigger full[k]} :: k in full ==> full[k].id.key == k
  }

  ghost predicate BelowIndex(heap: multiset<SendRecordId>, indices: Indices) {
    forall e {:trigger heap[e]} :: e in heap ==> e.key.id < indices.Get(e.key.typ) && heap[e] == 1
  }

  ghost predicate Current(heap: multiset<SendRecordId>, full: map<Key, SendRecord>) {
    forall k, e {:trigger full[k], heap[e]} :: k in full && e in heap && e.key == k ==> e == full[k].id
  }

  ghost predicate Complete(q: Queues) {
    forall k {:trigger k in q.full} :: k in q.full && k.id < q.indices.Get(k.typ) ==> q.full[k].id in q.heap
  }

  /** Whatever is pending, something in the heap will get the resender going. */
  ghost predicate Live(q: Queues) {
    q.heap == multiset{} ==> q.full == map[]
  }

  /** Everything in the queues is below the next id of its type. */
  ghost predicate Below(q: Queues, next: Indices) {
    (forall e {:trigger q.heap[e]} :: e in q.heap ==> e.key.id < next.Get(e.key.typ))
    && (forall k {:trigger k in q.full} :: k in q.full ==> k.id < next.Get(k.typ))
  }

  // ---------------------------------------------------------------- order

  /** `Above` is a strict order whose ties are records of equal time, id and freshness. */
  lemma AboveIsStrictWeakOrder(a: SendRecordId, b: SendRecordId, c: SendRecordId)
    ensures !(a.Above(b) && b.Above(a))
    ensures a.Above(b) && b.Above(c) ==> a.Above(c)
    ensures !a.Above(b) && !b.Above(a) <==>
            a.last == b.last && a.key.id == b.key.id && (a.tries == 0 <==> b.tries == 0)
    ensures !a.Above(b) && !b.Above(c) ==> !a.Above(c)
  {
  }

  predicate IsTop(heap: multiset<SendRecordId>, e: SendRecordId) {
    e in heap && forall e' {:trigger heap[e']} :: e' in heap ==> !e'.Above(e)
  }

  /** What was never sent goes first; then what was handed over or sent the longest ago; then the lowest id. */
  ghost predicate Foremost(heap: multiset<SendRecordId>, e: SendRecordId) {
    && e in heap
    && forall d {:trigger heap[d]} :: d in heap ==>
         && (d.tries == 0 ==> e.tries == 0)
         && ((d.tries == 0 <==> e.tries == 0) ==> e.last <= d.last && (e.last == d.last ==> e.key.id <= d.key.id))
  }

  lemma TopIffForemost(heap: multiset<SendRecordId>, e: SendRecordId)
    ensures IsTop(heap, e) <==> Foremost(heap, e)
  {
  }

  lemma {:induction false} TopExists(heap: multiset<SendRecordId>) returns (top: SendRecordId)
    requires heap != multiset{}
    ensures IsTop(heap, top)
    decreases |heap|
  {
    var e :| e in heap;
    var rest := heap - multiset{e};
    Removed(heap, e);
    if rest == multiset{} {
      top := e;
    } else {
      var t := TopExists(rest);
      top := if e.Above(t) then e else t;
      forall d | d in heap
        ensures !d.Above(top)
      {
        if d in rest { AboveIsStrictWeakOrder(d, e, t); } else { assert d == e; }
      }
    }
  }

  /** If the top of the heap is not due, nothing in the heap is. */
  lemma TopNotDue(heap: multiset<SendRecordId>, top: SendRecordId, now: Time, rto: Time)
    requires IsTop(heap, top) && !top.Due(now, rto)
    ensures NothingDue(heap, now, rto)
  {
  }

  // ---------------------------------------------------------------- filling up

  /** The lowest pending id of a type from `start` on. */
  ghost predicate IsFirst(full: map<Key, SendRecord>, t: QueueType, start: nat, id: nat) {
    Key(t, id) in full && start <= id
    && forall k {:trigger k in full} :: k in full && k.typ == t && start <= k.id ==> id <= k.id
  }

  ghost predicate NoneFrom(full: map<Key, SendRecord>, t: QueueType, start: nat) {
    forall k {:trigger k in full} :: k in full && k.typ == t ==> k.id < start
  }

  ghost function First(full: map<Key, SendRecord>, t: QueueType, start: nat): Option<nat> {
    if id: nat :| IsFirst(full, t, start, id) then Some(id) else None
  }

  lemma FirstIs(full: map<Key, SendRecord>, t: QueueType, start: nat, r: Option<nat>)
    requires r.Some? ==> IsFirst(full, t, start, r.value)
    requires r.None? ==> NoneFrom(full, t, start)
    ensures First(full, t, start) == r
  {
    if f :| IsFirst(full, t, start, f) {
      assert Key(t, f) in full;
    }
  }

  method FindFirst(full: map<Key, SendRecord>, t: QueueType, start: nat) returns (r: Option<nat>)
    ensures r.Some? ==> IsFirst(full, t, start, r.value)
    ensures r.None? ==> NoneFrom(full, t, start)
  {
    r := None;
    var keys := full.Keys;
    while keys != {}
      invariant keys <= full.Keys
      invariant r.Some? ==> Key(t, r.value) in full && start <= r.value
      invariant forall k :: k in full.Keys - keys && k.typ == t && start <= k.id ==> r.Some? && r.value <= k.id
      decreases keys
    {
      var k :| k in keys;
      keys := keys - {k};
      if k.typ == t && start <= k.id && (r.None? || k.id < r.value) {
        r := Some(k.id);
      }
    }
  }

  /** k is the lowest record of its type that is not queued. */
  ghost predicate Next(q: Queues, k: Key) {
    k in q.full && IsFirst(q.full, k.typ, q.indices.Get(k.typ), k.id)
  }

  /** Of both types the record that was handed over last; commands go first on a tie. */
  ghost function Best(q: Queues): (best: Option<Key>) {
    var c, l := First(q.full, Command, q.indices.command), First(q.full, CommandLow, q.indices.low);
    if l.Some? && (c.None? || q.full[Key(Command, c.value)].sent < q.full[Key(CommandLow, l.value)].sent)
    then Some(Key(CommandLow, l.value))
    else if c.Some? then Some(Key(Command, c.value)) else None
  }

  /** Up to n records are added to the heap, the best first. */
  ghost function Fill(q: Queues, n: nat): Queues
    decreases n
  {
    if n == 0 || Best(q).None? then q else Fill(Push(q, Best(q).value), n - 1)
  }

  function Push(q: Queues, k: Key): Queues
    requires k in q.full
  {
    Queues(q.heap + multiset{q.full[k].id}, q.full, q.indices.Set(k.typ, k.id + 1))
  }

  /** The record of e stands between the index and a higher one. */
  ghost predicate Passed(q: Queues, indices: Indices, e: SendRecordId) {
    e.key in q.full && q.full[e.key].id == e && q.indices.Get(e.key.typ) <= e.key.id < indices.Get(e.key.typ)
  }

  /** Every index moves up, if at all, and the records it passes are added to the heap, each once. */
  ghost predicate Extends(q: Queues, r: Queues) {
    r.full == q.full && q.indices.command <= r.indices.command && q.indices.low <= r.indices.low
    && forall e {:trigger q.heap[e]} {:trigger r.heap[e]} ::
         r.heap[e] == q.heap[e] + (if Passed(q, r.indices, e) then 1 else 0)
  }

  /** The pending records that are not in the heap. */
  ghost function Unqueued(q: Queues): set<Key> {
    set k | k in q.full && q.indices.Get(k.typ) <= k.id
  }

  lemma PushExtends(q: Queues, k: Key)
    requires Keyed(q.full) && Next(q, k)
    ensures Extends(q, Push(q, k))
    ensures |Push(q, k).heap| == |q.heap| + 1
    ensures |Unqueued(Push(q, k))| == |Unqueued(q)| - 1
  {
    var q' := Push(q, k);
    Added(q.heap, q.full[k].id);
    assert k in Unqueued(q);
    assert Unqueued(q') == Unqueued(q) - {k} by {
      forall j | j in q.full && j.typ == k.typ && q.indices.Get(j.typ) <= j.id < q'.indices.Get(j.typ)
        ensures j == k
      {
      }
    }
  }

  lemma ExtendsTransitive(p: Queues, q: Queues, r: Queues)
    requires Extends(p, q) && Extends(q, r)
    ensures Extends(p, r)
  {
  }

  lemma ExtendsKeeps(q: Queues, r: Queues)
    requires Extends(q, r)
    ensures Kept(q) ==> Kept(r)
    ensures Indexed(q) ==> Indexed(r)
  {
    if Kept(q) {
      forall k | k in r.full && k.id < r.indices.Get(k.typ)
        ensures r.full[k].id in r.heap
      {
        var e := q.full[k].id;
        assert e.key == k;
        if k.id < q.indices.Get(k.typ) { assert e in q.heap; } else { assert Passed(q, r.indices, e); }
        assert r.heap[e] > 0;
      }
    }
  }

  lemma ExtendsKeepsBelow(q: Queues, r: Queues, next: Indices)
    requires Extends(q, r) && Below(q, next)
    ensures Below(r, next)
  {
  }

  lemma Added<T>(h: multiset<T>, e: T)
    ensures forall d :: (h + multiset{e})[d] == h[d] + (if d == e then 1 else 0)
    ensures |h + multiset{e}| == |h| + 1
  {
  }

  lemma Removed<T>(h: multiset<T>, e: T)
    requires e in h
    ensures forall d :: (h - multiset{e})[d] == h[d] - (if d == e then 1 else 0)
    ensures |h - multiset{e}| == |h| - 1
  {
  }

  /** Nothing pending is left outside of the heap. */
  ghost predicate AllQueued(q: Queues) {
    NoneFrom(q.full, Command, q.indices.command) && NoneFrom(q.full, CommandLow, q.indices.low)
  }

  function Slots(size: nat, window: nat): nat {
    if size < window then window - size else 0
  }

  /** r is q filled up to a window. */
  ghost predicate FilledUp(q: Queues, r: Queues, window: nat) {
    r == Fill(q, Slots(|q.heap|, window)) && Extends(q, r)
    && |r.heap| <= (if |q.heap| < window then window else |q.heap|)
    && (|r.heap| >= window || AllQueued(r))
  }

  /** Filling up loses nothing, and from an exact index leads to an exact one. */
  lemma FilledUpKeeps(q: Queues, r: Queues, window: nat)
    requires FilledUp(q, r, window) && Kept(q) && window >= 1
    ensures Kept(r) && Live(r)
    ensures Indexed(q) ==> Indexed(r)
  {
    ExtendsKeeps(q, r);
    forall k | k in r.full && AllQueued(r)
      ensures r.full[k].id in r.heap
    {
      assert k.typ == Command || k.typ == CommandLow;
    }
  }

  // ---------------------------------------------------------------- acks

  /**
   * The record an acked 16-bit id stands for, given the lowest pending id: the program
   * keeps its generation, or takes the next one when the acked id is the smaller number.
   */
  function AckTarget(first: nat, ackId: u16): nat {
    if first % ID_RANGE == ackId then first
    else PartialPacketId(
      if ackId < first % ID_RANGE then (first / ID_RANGE + 1) % 0x1_0000_0000 else first / ID_RANGE % 0x1_0000_0000,
      ackId).Full()
  }

  /** It is the only id from `first` on, within one round of ids, that looks like the acked one. */
  lemma AckTargetIsNext(first: nat, k: nat)
    requires first <= k < first + ID_RANGE && k < FULL_RANGE
    ensures AckTarget(first, k % ID_RANGE) == k
  {
    if k % ID_RANGE < first % ID_RANGE {
      OfUnique(k, first / ID_RANGE + 1, k % ID_RANGE);
    } else {
      OfUnique(k, first / ID_RANGE, k % ID_RANGE);
    }
  }

  predicate Increasing(ids: seq<nat>) {
    forall i, j :: 0 <= i < j < |ids| ==> ids[i] < ids[j]
  }

  /** The pending ids of one type, in the order of the map. */
  ghost predicate Lists(full: map<Key, SendRecord>, t: QueueType, ids: seq<nat>) {
    Increasing(ids)
    && (forall i :: 0 <= i < |ids| ==> Key(t, ids[i]) in full)
    && (forall k {:trigger k in full} :: k in full && k.typ == t ==> k.id in ids)
  }

  ghost function IdsOf(keys: set<Key>, t: QueueType): set<nat> {
    set k | k in keys && k.typ == t :: k.id
  }

  ghost predicate IsLowest(ids: set<nat>, m: nat) {
    m in ids && forall x {:trigger x in ids} :: x in ids ==> m <= x
  }

  ghost function Sorted(ids: set<nat>): seq<nat> {
    if ids == {} then []
    else
      LowestExists(ids);
      var m :| IsLowest(ids, m);
      [m] + Sorted(ids - {m})
  }

  lemma {:induction false} LowestExists(ids: set<nat>)
    requires ids != {}
    ensures exists m {:trigger IsLowest(ids, m)} :: IsLowest(ids, m)
  {
    var m :| m in ids;
    var rest := ids - {m};
    if rest == {} {
      assert forall x {:trigger x in ids} :: x in ids ==> x == m || x in rest;
      assert IsLowest(ids, m);
    } else {
      LowestExists(rest);
      var l :| IsLowest(rest, l);
      assert IsLowest(ids, if m <= l then m else l) by {
        assert forall x {:trigger x in ids} :: x in ids ==> x == m || x in rest;
      }
    }
  }

  lemma SortedFirst(ids: set<nat>) returns (m: nat)
    requires ids != {}
    ensures IsLowest(ids, m) && Sorted(ids) == [m] + Sorted(ids - {m})
  {
    LowestExists(ids);
    m := Sorted(ids)[0];
  }

  lemma {:induction false} SortedMembers(ids: set<nat>)
    ensures Increasing(Sorted(ids)) && forall x {:trigger x in ids} :: x in Sorted(ids) <==> x in ids
    decreases |ids|
  {
    if ids != {} {
      var m := SortedFirst(ids);
      SortedMembers(ids - {m});
      var rest := Sorted(ids - {m});
      LowestFirst(m, rest, ids);
    }
  }

  lemma LowestFirst(m: nat, rest: seq<nat>, ids: set<nat>)
    requires IsLowest(ids, m) && Increasing(rest) && forall x {:trigger x in rest} :: x in rest <==> x in ids - {m}
    ensures Increasing([m] + rest) && forall x {:trigger x in ids} :: x in [m] + rest <==> x in ids
  {
    forall i | 0 <= i < |rest|
      ensures m < rest[i]
    {
      assert rest[i] in rest;
    }
    assert forall x :: x in [m] + rest <==> x == m || x in rest;
  }

  /** The pending ids of a type, lowest first. */
  ghost function PendingIds(keys: set<Key>, t: QueueType): seq<nat> {
    Sorted(IdsOf(keys, t))
  }

  lemma {:induction false} PendingLists(full: map<Key, SendRecord>, t: QueueType)
    ensures Lists(full, t, PendingIds(full.Keys, t))
  {
    var ids := IdsOf(full.Keys, t);
    SortedMembers(ids);
    forall i | 0 <= i < |Sorted(ids)|
      ensures Key(t, Sorted(ids)[i]) in full
    {
      assert Sorted(ids)[i] in ids;
    }
    forall k | k in full && k.typ == t
      ensures k.id in Sorted(ids)
    {
      assert k in full.Keys && k.id in ids;
    }
  }

  /** p is one of the w lowest ids. */
  predicate AmongLowest(ids: seq<nat>, p: nat, w: nat) {
    p in ids[..if w < |ids| then w else |ids|]
  }

  lemma {:induction false} DistinctMembers<T>(h: multiset<T>, es: seq<T>)
    requires forall i, j :: 0 <= i < j < |es| ==> es[i] != es[j]
    requires forall i {:trigger es[i]} :: 0 <= i < |es| ==> es[i] in h
    ensures |es| <= |h|
    decreases |es|
  {
    if es != [] {
      var last := |es| - 1;
      Removed(h, es[last]);
      DistinctMembers(h - multiset{es[last]}, es[..last]);
    }
  }

  /** The lowest pending ids are in the heap, each with its own record. */
  lemma {:induction false} LowestInHeap(q: Queues, t: QueueType, ids: seq<nat>, k: nat)
    requires Kept(q) && Lists(q.full, t, ids) && k < |ids| && ids[k] < q.indices.Get(t)
    ensures k + 1 <= |q.heap|
  {
    assert forall i :: 0 <= i <= k ==> Key(t, ids[i]) in q.full;
    var es := seq(k + 1, i requires 0 <= i <= k => q.full[Key(t, ids[i])].id);
    forall i | 0 <= i < |es|
      ensures es[i] in q.heap && es[i].key == Key(t, ids[i])
    {
      assert ids[i] <= ids[k];
    }
    DistinctMembers(q.heap, es);
  }

  /** A packet that is sent is one of the lowest pending ones of its type, as many as are in the heap. */
  lemma {:induction false} HeapHoldsLowest(q: Queues, e: SendRecordId)
    requires Indexed(q) && e in q.heap && e.key in q.full
    ensures AmongLowest(PendingIds(q.full.Keys, e.key.typ), e.key.id, |q.heap|)
  {
    hide PendingIds, Lists;
    var ids := PendingIds(q.full.Keys, e.key.typ);
    PendingLists(q.full, e.key.typ);
    var k := ListedAt(q.full, e.key.typ, ids, e.key.id);
    LowestInHeap(q, e.key.typ, ids, k);
    assert ids[..if |q.heap| < |ids| then |q.heap| else |ids|][k] == e.key.id;
  }

  lemma ListedAt(full: map<Key, SendRecord>, t: QueueType, ids: seq<nat>, id: nat) returns (k: nat)
    requires Lists(full, t, ids) && Key(t, id) in full
    ensures k < |ids| && ids[k] == id
  {
    assert Key(t, id).id in ids;
    k :| 0 <= k < |ids| && ids[k] == id;
  }

  /** The pending ids after an ack. */
  function AfterAck(ids: seq<nat>, ackId: u16): seq<nat> {
    if ids == [] then ids else Deleted(ids, AckTarget(ids[0], ackId))
  }

  function Deleted(ids: seq<nat>, id: nat): seq<nat> {
    if ids == [] then [] else if ids[0] == id then ids[1..] else [ids[0]] + Deleted(ids[1..], id)
  }

  lemma {:induction false} DeletedMembers(ids: seq<nat>, id: nat)
    requires Increasing(ids)
    ensures Increasing(Deleted(ids, id))
    ensures forall x :: x in Deleted(ids, id) <==> x in ids && x != id
  {
    if ids != [] {
      var first, rest := ids[0], ids[1..];
      RestIncreases(ids);
      assert ids == [first] + rest;
      if first != id {
        DeletedMembers(rest, id);
        LowerFirst(first, Deleted(rest, id), rest);
      }
    }
  }

  lemma RestIncreases(ids: seq<nat>)
    requires Increasing(ids) && ids != []
    ensures Increasing(ids[1..]) && forall x {:trigger x in ids[1..]} :: x in ids[1..] ==> ids[0] < x
  {
  }

  lemma LowerFirst(first: nat, ids: seq<nat>, all: seq<nat>)
    requires Increasing(ids) && (forall x {:trigger x in ids} :: x in ids ==> x in all)
    requires forall x {:trigger x in all} :: x in all ==> first < x
    ensures Increasing([first] + ids)
  {
    forall i | 0 <= i < |ids|
      ensures first < ids[i]
    {
      assert ids[i] in ids;
    }
  }

  /** The announcement that everything up to an id is acked, made when the lowest one is. */
  function AckEvent(ids: seq<nat>, ackId: u16, outgoing: nat): Option<int> {
    if ids == [] || ids[0] % ID_RANGE != ackId then None
    else if |ids| > 1 then Some((ids[1] - 1) % FULL_RANGE)
    else Some((outgoing - 1) % FULL_RANGE)
  }

  /** The announced id is below everything still pending, and covers the record just acked. */
  lemma AckEventIsCumulative(ids: seq<nat>, ackId: u16, outgoing: nat)
    requires Increasing(ids) && outgoing < FULL_RANGE
    requires forall i :: 0 <= i < |ids| ==> ids[i] < outgoing
    requires AckEvent(ids, ackId, outgoing).Some?
    ensures var w := AckEvent(ids, ackId, outgoing).value;
      (forall id :: id in AfterAck(ids, ackId) ==> w < id)
      && ids[0] <= w && (w + 1 == outgoing || w + 1 in AfterAck(ids, ackId))
  {
    var w := AckEvent(ids, ackId, outgoing).value;
    assert AfterAck(ids, ackId) == ids[1..];
    if |ids| > 1 {
      assert w + 1 == ids[1] == ids[1..][0];
    } else {
      assert w + 1 == outgoing;
    }
  }

  lemma RemoveKeeps(q: Queues, k: Key, next: Indices)
    requires Kept(q) && Live(q) && Below(q, next)
    ensures var r := q.(full := q.full - {k}); Kept(r) && Live(r) && Below(r, next) && (Indexed(q) ==> Indexed(r))
  {
  }

  lemma {:induction false} RemoveFromList(full: map<Key, SendRecord>, t: QueueType, ids: seq<nat>, id: nat)
    requires Lists(full, t, ids)
    ensures Lists(full - {Key(t, id)}, t, Deleted(ids, id))
  {
    DeletedMembers(ids, id);
    forall i | 0 <= i < |Deleted(ids, id)|
      ensures Key(t, Deleted(ids, id)[i]) in full - {Key(t, id)}
    {
      assert Deleted(ids, id)[i] in Deleted(ids, id);
    }
  }

  lemma FirstOfList(full: map<Key, SendRecord>, t: QueueType, ids: seq<nat>, first: nat)
    requires Lists(full, t, ids) && IsFirst(full, t, 0, first)
    ensures ids != [] && ids[0] == first
  {
    assert Key(t, first).id in ids;
    assert Key(t, ids[0]) in full;
  }

  lemma SecondOfList(full: map<Key, SendRecord>, t: QueueType, ids: seq<nat>, second: Option<nat>)
    requires Lists(full, t, ids) && ids != []
    requires if second.Some? then IsFirst(full, t, ids[0] + 1, second.value) else NoneFrom(full, t, ids[0] + 1)
    ensures if second.Some? then |ids| > 1 && ids[1] == second.value else |ids| == 1
  {
    if second.Some? {
      assert Key(t, second.value).id in ids;
    }
    if |ids| > 1 {
      assert Key(t, ids[1]) in full;
    }
  }

  // ---------------------------------------------------------------- new records

  /** The index after a packet was handed over: it is moved back to a lower id. */
  function LoweredIndex(q: Queues, k: Key): Indices {
    if q.indices.Get(k.typ) > k.id then q.indices.Set(k.typ, k.id) else q.indices
  }

  function Insert(q: Queues, k: Key, now: Time): Queues {
    Queues(q.heap, q.full[k := SendRecord(now, SendRecordId(now, 0, k))], LoweredIndex(q, k))
  }

  /** Handing over a packet keeps the index exact if and only if nothing from its id on is in the heap. */
  lemma InsertKeepsIndexedIff(q: Queues, k: Key, now: Time)
    requires Indexed(q)
    ensures Indexed(Insert(q, k, now)) <==> NothingFrom(q.heap, k)
  {
    var q' := Insert(q, k, now);
    if NothingFrom(q.heap, k) {
      InsertKeepsIndexed(q, k, now);
    } else {
      var e :| e in q.heap && e.key.typ == k.typ && k.id <= e.key.id;
      assert e.key.id < q.indices.Get(k.typ);
      assert q'.indices.Get(k.typ) == k.id;
      assert !BelowIndex(q'.heap, q'.indices);
    }
  }

  ghost predicate NothingFrom(heap: multiset<SendRecordId>, k: Key) {
    forall e {:trigger heap[e]} :: e in heap && e.key.typ == k.typ ==> e.key.id < k.id
  }

  lemma InsertKeepsIndexed(q: Queues, k: Key, now: Time)
    requires Indexed(q) && NothingFrom(q.heap, k)
    ensures Indexed(Insert(q, k, now))
  {
    var q' := Insert(q, k, now);
    InsertLowers(q, k, now);
    assert Current(q'.heap, q'.full);
    assert BelowIndex(q'.heap, q'.indices);
    assert Complete(q');
  }

  lemma InsertLowers(q: Queues, k: Key, now: Time)
    ensures var i := Insert(q, k, now).indices;
      i.Get(k.typ) <= k.id && forall t :: i.Get(t) <= q.indices.Get(t) && (t != k.typ ==> i.Get(t) == q.indices.Get(t))
  {
  }

  /** The next ids after a packet was handed over. */
  function NextIdsAfter(next: Indices, k: Key): Indices {
    if next.Get(k.typ) <= k.id then next.Set(k.typ, k.id + 1) else next
  }

  /** Whatever the id, nothing gets lost; an id that is not below the next one keeps the index exact. */
  lemma InsertKeeps(q: Queues, k: Key, now: Time, next: Indices)
    requires Kept(q) && Below(q, next)
    ensures Kept(Insert(q, k, now)) && Below(Insert(q, k, now), NextIdsAfter(next, k))
    ensures next.Get(k.typ) <= k.id ==> NothingFrom(q.heap, k)
  {
    InsertLowers(q, k, now);
  }

  /**
   * The packet with id 65535 is filed a generation later. If it is still in the heap when the next one is
   * handed over, and the window has room for all, it stands in the heap twice.
   */
  lemma LastIdIsQueuedTwice(q: Queues, t: QueueType, p: nat, now: Time, r: Queues, window: nat)
    requires Kept(q) && FilledUp(Insert(q, Key(t, p + 1), now), r, window) && AllQueued(r)
    requires var last := Key(t, p + ID_RANGE); last in q.full && q.full[last].id in q.heap
    ensures r.heap[q.full[Key(t, p + ID_RANGE)].id] == q.heap[q.full[Key(t, p + ID_RANGE)].id] + 1
    ensures !Indexed(r)
  {
    var last := Key(t, p + ID_RANGE);
    var q' := Insert(q, Key(t, p + 1), now);
    InsertLowers(q, Key(t, p + 1), now);
    assert q'.full[last] == q.full[last] && q.full[last].id.key == last;
    assert last in r.full;
    assert Passed(q', r.indices, q.full[last].id);
    assert r.heap[q.full[last].id] == q'.heap[q.full[last].id] + 1 > 1;
  }

  // ---------------------------------------------------------------- one record sent

  /** The record at the top was sent: the heap entry and the record are renewed together. */
  function Renew(q: Queues, e: SendRecordId, now: Time): Queues
    requires e.key in q.full
  {
    Queues(q.heap - multiset{e} + multiset{e.Sent(now)}, Renewed(q.full, e, now), q.indices)
  }

  function Renewed(full: map<Key, SendRecord>, e: SendRecordId, now: Time): map<Key, SendRecord>
    requires e.key in full
  {
    full[e.key := full[e.key].(id := e.Sent(now))]
  }

  lemma RenewedHeap(heap: multiset<SendRecordId>, e: SendRecordId, now: Time)
    requires e in heap
    ensures forall d {:trigger heap[d]} {:trigger (heap - multiset{e} + multiset{e.Sent(now)})[d]} ::
      (heap - multiset{e} + multiset{e.Sent(now)})[d] ==
      heap[d] + (if d == e.Sent(now) then 1 else 0) - (if d == e then 1 else 0)
  {
  }

  lemma RenewKeepsIndexed(q: Queues, e: SendRecordId, now: Time)
    requires Indexed(q) && e in q.heap && e.key in q.full
    ensures Indexed(Renew(q, e, now)) && q.full[e.key].id == e
  {
    var q' := Renew(q, e, now);
    RenewedHeap(q.heap, e, now);
    RenewKeeps(q, e, now);
    var e' := e.Sent(now);
    assert e' != e && q.full[e.key].id == e && e' !in q.heap;
    assert q'.heap[e'] == 1;
    assert BelowIndex(q'.heap, q'.indices);
    assert forall d :: d in q'.heap && d.key == e.key ==> d == e';
  }

  lemma RenewKeeps(q: Queues, e: SendRecordId, now: Time)
    requires Kept(q) && e in q.heap && e.key in q.full
    ensures Kept(Renew(q, e, now)) && Renew(q, e, now).heap != multiset{} && |Renew(q, e, now).heap| == |q.heap|
    ensures forall next :: Below(q, next) ==> Below(Renew(q, e, now), next)
  {
    var q' := Renew(q, e, now);
    RenewedHeap(q.heap, e, now);
    Removed(q.heap, e);
    assert q'.heap[e.Sent(now)] >= 1;
    forall k | k in q'.full && k.id < q'.indices.Get(k.typ)
      ensures q'.full[k].id in q'.heap
    {
      if k != e.key {
        assert q.full[k].id in q.heap && q.full[k].id.key == k;
      }
    }
  }

  /** An entry left over from an ack is dropped. */
  lemma DropKeepsIndexed(q: Queues, e: SendRecordId)
    requires Indexed(q) && e in q.heap && e.key !in q.full
    ensures Indexed(q.(heap := q.heap - multiset{e}))
  {
    Removed(q.heap, e);
    DropKeeps(q, e);
  }

  lemma DropKeeps(q: Queues, e: SendRecordId)
    requires Kept(q) && e in q.heap && e.key !in q.full
    ensures Kept(q.(heap := q.heap - multiset{e}))
    ensures forall next :: Below(q, next) ==> Below(q.(heap := q.heap - multiset{e}), next)
  {
    Removed(q.heap, e);
    forall k | k in q.full && k.id < q.indices.Get(k.typ)
      ensures q.full[k].id in q.heap - multiset{e}
    {
      assert q.full[k].id.key == k;
    }
  }

  // ---------------------------------------------------------------- the resender

  const MAX_SEND_RTO: Time := 1_000_000_000

  /** `u16::MAX / 2`, the largest congestion window. */
  const MAX_WINDOW: int := 32767

  /** The retransmission timeout: smoothed round trip time plus four deviations, at most a second. */
  function Rto(srtt: Time, srttDev: Time): Time {
    Min(srtt + srttDev * 4, MAX_SEND_RTO)
  }

  /** The smoothed round trip time after a loss: doubled, up to the connection timeout. */
  function AfterLoss(srtt: Time, timeout: Time): Time {
    Min(srtt * 2, timeout)
  }

  lemma RtoNeverShrinks(srtt: Time, srttDev: Time, timeout: Time)
    requires srtt >= 0 && srttDev >= 0 && timeout >= MAX_SEND_RTO
    ensures Rto(srtt, srttDev) <= Rto(AfterLoss(srtt, timeout), srttDev)
    ensures AfterLoss(srtt, timeout) >= 0
  {
  }

  /**
   * It is at most a second, and up to that the round trip time and four times its deviation. A loss doubles the
   * round trip time, up to the timeout of the connection.
   */
  lemma RtoIs(srtt: Time, srttDev: Time)
    ensures Rto(srtt, srttDev) <= 1_000_000_000 && Rto(srtt, srttDev) <= srtt + srttDev + srttDev + srttDev + srttDev
    ensures Rto(srtt, srttDev) < 1_000_000_000 ==> Rto(srtt, srttDev) - srtt == 4 * srttDev
    ensures forall timeout {:trigger AfterLoss(srtt, timeout)} ::
              AfterLoss(srtt, timeout) == if srtt + srtt <= timeout then srtt + srtt else timeout
  {
  }

  datatype SendOutcome = SentAll | WouldBlock | SocketFailed

  datatype PollResult = Idle | Blocked | SocketError | TimedOut

  datatype Round = Dropped(entry: SendRecordId) | Sent(entry: SendRecordId) | Ended(result: PollResult)

  class Resender {
    var sendQueue: multiset<SendRecordId>
    var fullSendQueue: map<Key, SendRecord>
    var sendQueueIndices: Indices
    var srtt: Time
    var srttDev: Time
    ghost var nextIds: Indices

    function State(): Queues
      reads this
    {
      Queues(sendQueue, fullSendQueue, sendQueueIndices)
    }

    /** This holds for ids that are handed over in any order. */
    ghost predicate Valid()
      reads this
    {
      Kept(State()) && Live(State()) && Below(State(), nextIds) && srtt >= 0 && srttDev >= 0
      && |sendQueue| <= MAX_WINDOW
    }

    ghost predicate Exact()
      reads this
    {
      Indexed(State())
    }

    constructor ()
      ensures Valid() && Exact() && State() == Queues(multiset{}, map[], Indices(0, 0)) && nextIds == Indices(0, 0)
    {
      sendQueue, fullSendQueue, sendQueueIndices := multiset{}, map[], Indices(0, 0);
      srtt, srttDev, nextIds := 500_000_000, 0, Indices(0, 0);
    }

    /** The congestion window: any value the CUBIC formula may give. */
    method GetWindow() returns (window: nat)
      ensures 1 <= window <= MAX_WINDOW
    {
      window :| 1 <= window <= MAX_WINDOW;
    }

    /** The lowest unqueued record; of both types the one that was handed over last. */
    method ChooseNext() returns (best: Option<Key>)
      ensures best.Some? ==> Next(State(), best.value)
      ensures best.Some? ==> forall k :: Next(State(), k) ==> fullSendQueue[k].sent <= fullSendQueue[best.value].sent
      ensures best.None? ==> AllQueued(State())
      ensures best == Best(State())
    {
      var c := FindFirst(fullSendQueue, Command, sendQueueIndices.command);
      var l := FindFirst(fullSendQueue, CommandLow, sendQueueIndices.low);
      FirstIs(fullSendQueue, Command, sendQueueIndices.command, c);
      FirstIs(fullSendQueue, CommandLow, sendQueueIndices.low, l);
      best := None;
      if c.Some? {
        best := Some(Key(Command, c.value));
      }
      if l.Some? && (best.None? || fullSendQueue[best.value].sent < fullSendQueue[Key(CommandLow, l.value)].sent) {
        best := Some(Key(CommandLow, l.value));
      }
    }

    method QueueNext() returns (queued: bool)
      requires Keyed(fullSendQueue)
      modifies this`sendQueue, this`sendQueueIndices
      ensures Extends(old(State()), State())
      ensures |sendQueue| == |old(sendQueue)| + (if queued then 1 else 0)
      ensures |sendQueue| + |Unqueued(State())| == old(|sendQueue| + |Unqueued(State())|)
      ensures !queued ==> AllQueued(State()) && Best(State()).None? && State() == old(State())
      ensures queued ==> old(Best(State())).Some? && State() == Push(old(State()), old(Best(State())).value)
    {
      var best := ChooseNext();
      queued := best.Some?;
      if best.Some? {
        PushExtends(State(), best.value);
        var pushed := Push(State(), best.value);
        sendQueue, sendQueueIndices := pushed.heap, pushed.indices;
      }
    }

    method FillUpSendQueue() returns (ghost window: nat)
      requires Keyed(fullSendQueue)
      modifies this`sendQueue, this`sendQueueIndices
      ensures 1 <= window <= MAX_WINDOW && FilledUp(old(State()), State(), window)
      ensures |sendQueue| + |Unqueued(State())| == old(|sendQueue| + |Unqueued(State())|)
      ensures old(Kept(State())) ==> Kept(State()) && Live(State())
      ensures old(Exact()) ==> Exact()
    {
      hide Extends, Indexed, Unqueued, Live, Best, Push;
      ghost var before := State();
      var limit := GetWindow();
      window := limit;
      var slots := Slots(|sendQueue|, limit);
      ExtendsItself(before);
      while slots > 0
        invariant slots >= 0
        invariant Extends(before, State()) && fullSendQueue == before.full
        invariant Fill(State(), slots) == Fill(before, Slots(|before.heap|, limit))
        invariant |sendQueue| + slots == if |before.heap| < limit then limit else |before.heap|
        invariant |sendQueue| + |Unqueued(State())| == old(|sendQueue| + |Unqueued(State())|)
      {
        ghost var q := State();
        var queued := QueueNext();
        ExtendsTransitive(before, q, State());
        if !queued {
          break;
        }
        slots := slots - 1;
      }
      if Kept(before) { FilledUpKeeps(before, State(), window); }
      if Indexed(before) { IndexedIsKept(before); FilledUpKeeps(before, State(), window); }
    }

    /** After a loss the heap is built anew from the lowest pending ids. */
    method RebuildSendQueue() returns (ghost window: nat)
      requires Keyed(fullSendQueue)
      modifies this`sendQueue, this`sendQueueIndices
      ensures 1 <= window <= MAX_WINDOW
      ensures FilledUp(Queues(multiset{}, old(fullSendQueue), Indices(0, 0)), State(), window)
      ensures Kept(State()) && Live(State()) && Exact()
    {
      sendQueue := multiset{};
      sendQueueIndices := Indices(0, 0);
      window := FillUpSendQueue();
    }

    /** A packet is handed over. */
    method SendPacket(k: Key, now: Time) returns (ghost window: nat)
      requires Valid()
      modifies this`sendQueue, this`fullSendQueue, this`sendQueueIndices, this`nextIds
      ensures Valid() && nextIds == NextIdsAfter(old(nextIds), k)
      ensures 1 <= window <= MAX_WINDOW && FilledUp(Insert(old(State()), k, now), State(), window)
      ensures old(Exact()) && NothingFrom(old(sendQueue), k) ==> Exact()
      ensures old(Exact()) && old(nextIds).Get(k.typ) <= k.id ==> Exact()
    {
      hide Kept, Below, Indexed, Insert, FilledUp, Live, NothingFrom, NextIdsAfter, Keyed, Unqueued, Extends;
      InsertKeeps(State(), k, now, nextIds);
      if Exact() { InsertKeepsIndexedIff(State(), k, now); }
      InsertKeepsHeap(State(), k, now);
      var inserted := Insert(State(), k, now);
      fullSendQueue, sendQueueIndices := inserted.full, inserted.indices;
      nextIds := NextIdsAfter(nextIds, k);
      KeptIsKeyed(State());
      window := FillUpSendQueue();
      FilledUpExtends(inserted, State(), window);
      ExtendsKeepsBelow(inserted, State(), nextIds);
    }

    /** The other side acked a 16-bit id. */
    method AckPacket(t: QueueType, ackId: u16, outgoing: nat, now: Time) returns (event: Option<int>)
      requires Valid()
      modifies this`fullSendQueue, this`srtt, this`srttDev
      ensures Valid() && (old(Exact()) ==> Exact())
      ensures fullSendQueue == old(fullSendQueue) - Acked(old(fullSendQueue.Keys), t, ackId)
      ensures Lists(fullSendQueue, t, AfterAck(PendingIds(old(fullSendQueue.Keys), t), ackId))
      ensures event == AckEvent(PendingIds(old(fullSendQueue.Keys), t), ackId, outgoing)
      ensures var acked := old(fullSendQueue).Keys * Acked(old(fullSendQueue.Keys), t, ackId);
        && (acked == {} ==> srtt == old(srtt) && srttDev == old(srttDev))
        && forall k {:trigger k in acked} :: k in acked ==>
             Measured(old(srtt), old(srttDev), old(fullSendQueue[k]), now, srtt, srttDev)
    {
      hide Lists, PendingIds, IsFirst, Kept, Live, Below, Indexed;
      event := None;
      ghost var ids := PendingIds(fullSendQueue.Keys, t);
      PendingLists(fullSendQueue, t);
      var first := FindFirst(fullSendQueue, t, 0);
      if first.None? {
        SomeListed(fullSendQueue, t, ids);
        assert fullSendQueue == old(fullSendQueue) - {};
        return;
      }
      FirstOfList(fullSendQueue, t, ids, first.value);
      event := AckedThrough(t, first.value, ackId, outgoing, ids);
      var target := AckTarget(first.value, ackId);
      RemoveFromList(fullSendQueue, t, ids, target);
      RemoveRecord(Key(t, target), now);
    }

    method AckedThrough(t: QueueType, first: nat, ackId: u16, outgoing: nat, ghost ids: seq<nat>)
        returns (event: Option<int>)
      requires Lists(fullSendQueue, t, ids) && ids != [] && ids[0] == first
      ensures event == AckEvent(ids, ackId, outgoing)
    {
      if first % ID_RANGE != ackId {
        return None;
      }
      var second := FindFirst(fullSendQueue, t, first + 1);
      SecondOfList(fullSendQueue, t, ids, second);
      event := Some(((if second.Some? then second.value else outgoing) - 1) % FULL_RANGE);
    }

    method RemoveRecord(k: Key, now: Time)
      requires Valid()
      modifies this`fullSendQueue, this`srtt, this`srttDev
      ensures Valid() && (old(Exact()) ==> Exact())
      ensures fullSendQueue == old(fullSendQueue) - {k}
      ensures k !in old(fullSendQueue) ==> srtt == old(srtt) && srttDev == old(srttDev)
      ensures k in old(fullSendQueue) ==>
                Measured(old(srtt), old(srttDev), old(fullSendQueue[k]), now, srtt, srttDev)
    {
      RemoveKeeps(State(), k, nextIds);
      if k in fullSendQueue {
        var rec := fullSendQueue[k];
        if rec.id.tries == 1 && now >= rec.sent {
          UpdateSrtt(now - rec.sent);
        }
      }
      fullSendQueue := fullSendQueue - {k};
    }

    method UpdateSrtt(rtt: Time)
      requires rtt >= 0 && srtt >= 0 && srttDev >= 0
      modifies this`srtt, this`srttDev
      ensures srtt == old(srtt) * 7 / 8 + rtt / 8 && srtt >= 0 && srttDev >= 0
      ensures srttDev == old(srttDev) * 3 / 4 + (if rtt > old(srtt) then rtt - old(srtt) else old(srtt) - rtt) / 4
    {
      var diff := if rtt > srtt then rtt - srtt else srtt - rtt;
      srttDev := srttDev * 3 / 4 + diff / 4;
      srtt := srtt * 7 / 8 + rtt / 8;
    }

    // ---------------------------------------------------------------- polling

    /** `peek_mut`: some entry that no other one is above. */
    method Peek() returns (top: Option<SendRecordId>)
      ensures top.None? <==> sendQueue == multiset{}
      ensures top.Some? ==> IsTop(sendQueue, top.value) && Foremost(sendQueue, top.value)
    {
      if sendQueue == multiset{} {
        return None;
      }
      ghost var w := TopExists(sendQueue);
      var e :| e in sendQueue && IsTop(sendQueue, e);
      TopIffForemost(sendQueue, e);
      top := Some(e);
    }

    method DropLeftover(e: SendRecordId) returns (ghost window: nat)
      requires Valid() && e in sendQueue && e.key !in fullSendQueue
      modifies this`sendQueue, this`sendQueueIndices
      ensures Valid() && (old(Exact()) ==> Exact())
      ensures 1 <= window <= MAX_WINDOW
      ensures FilledUp(old(State()).(heap := old(sendQueue) - multiset{e}), State(), window)
      ensures |sendQueue| + |Unqueued(State())| == old(|sendQueue| + |Unqueued(State())|) - 1
    {
      hide Kept, Below, Indexed, FilledUp, Live, Unqueued;
      DropKeeps(State(), e);
      if Exact() { DropKeepsIndexed(State(), e); }
      Removed(sendQueue, e);
      UnqueuedKeys(State(), State().(heap := sendQueue - multiset{e}));
      KeptIsKeyed(State());
      sendQueue := sendQueue - multiset{e};
      ghost var dropped := State();
      window := FillUpSendQueue();
      FilledUpExtends(dropped, State(), window);
      ExtendsKeepsBelow(dropped, State(), nextIds);
    }

    /** The packet at the top went out; a repetition counts as a loss. */
    method RecordSent(e: SendRecordId, now: Time, timeout: Time) returns (ghost window: nat)
      requires Valid() && e in sendQueue && e.key in fullSendQueue && timeout >= 0
      modifies this`sendQueue, this`fullSendQueue, this`sendQueueIndices, this`srtt
      ensures Valid() && (old(Exact()) || e.tries > 0 ==> Exact())
      ensures fullSendQueue == Renewed(old(fullSendQueue), e, now)
      ensures e.tries == 0 ==> State() == Renew(old(State()), e, now) && srtt == old(srtt)
      ensures e.tries > 0 ==> FilledUp(Queues(multiset{}, fullSendQueue, Indices(0, 0)), State(), window)
      ensures e.tries > 0 ==> srtt == AfterLoss(old(srtt), timeout)
    {
      hide Indexed, Live, Below, FilledUp, Kept;
      RenewTop(e, now);
      window := 0;
      if e.tries + 1 != 1 {
        window := HandleLoss(timeout);
      }
    }

    method RenewTop(e: SendRecordId, now: Time)
      requires Valid() && e in sendQueue && e.key in fullSendQueue
      modifies this`sendQueue, this`fullSendQueue
      ensures Valid() && (old(Exact()) ==> Exact())
      ensures State() == Renew(old(State()), e, now)
    {
      hide Below, Indexed, Live, Kept;
      RenewKeeps(State(), e, now);
      NotEmptyIsLive(Renew(State(), e, now));
      if Exact() { RenewKeepsIndexed(State(), e, now); }
      var renewed := Renew(State(), e, now);
      sendQueue, fullSendQueue := renewed.heap, renewed.full;
    }

    method HandleLoss(timeout: Time) returns (ghost window: nat)
      requires Valid() && timeout >= 0
      modifies this`sendQueue, this`sendQueueIndices, this`srtt
      ensures Valid() && Exact() && srtt == AfterLoss(old(srtt), timeout)
      ensures FilledUp(Queues(multiset{}, fullSendQueue, Indices(0, 0)), State(), window)
    {
      hide Below, Indexed, Live, Kept, FilledUp;
      KeptIsKeyed(State());
      EmptiedIsBelow(State(), nextIds);
      srtt := AfterLoss(srtt, timeout);
      ghost var empty := Queues(multiset{}, fullSendQueue, Indices(0, 0));
      window := RebuildSendQueue();
      FilledUpExtends(empty, State(), window);
      ExtendsKeepsBelow(empty, State(), nextIds);
    }

    /** Whether the socket takes a datagram is decided outside of the resender. */
    method TrySend() returns (outcome: SendOutcome)
    {
      outcome := *;
    }

    /** One round of the poll loop, at its own instant. The top of the heap decides what happens. */
    method PollRound(now: Time, timeout: Time)
      returns (round: Round, ghost top: Option<SendRecordId>, ghost window: nat)
      requires Valid() && timeout >= 0
      modifies this`sendQueue, this`fullSendQueue, this`sendQueueIndices, this`srtt
      ensures Valid() && (old(Exact()) ==> Exact())
      ensures top.None? <==> old(sendQueue) == multiset{}
      ensures top.Some? ==> Foremost(old(sendQueue), top.value)
      ensures Outcome(old(fullSendQueue), top, now, old(Rto(srtt, srttDev)), timeout, round)
      ensures round.Dropped? ==> DroppedTop(old(State()), State(), round.entry, window) && srtt == old(srtt)
      ensures round.Dropped? ==> |sendQueue| + |Unqueued(State())| == old(|sendQueue| + |Unqueued(State())|) - 1
      ensures round.Sent? ==> SentTop(old(State()), State(), round.entry, now, old(Rto(srtt, srttDev)), window)
      ensures round.Sent? ==> srtt == if round.entry.tries == 0 then old(srtt) else AfterLoss(old(srtt), timeout)
      ensures round.Sent? && round.entry.tries > 0 ==> Exact()
      ensures round.Ended? ==> State() == old(State()) && srtt == old(srtt)
      ensures round == Ended(Idle) ==> NothingDue(sendQueue, now, Rto(srtt, srttDev))
    {
      hide Indexed, Live, Below, Rto, FilledUp, Kept, Unqueued;
      window := 0;
      var rto := Rto(srtt, srttDev);
      var first := Peek();
      top := first;
      if first.None? {
        return Ended(Idle), top, window;
      }
      var e := first.value;
      if e.key !in fullSendQueue {
        window := DropLeftover(e);
        return Dropped(e), top, window;
      }
      if e.tries != 0 && e.last > now - rto {
        TopNotDue(sendQueue, e, now, rto);
        return Ended(Idle), top, window;
      }
      if now - fullSendQueue[e.key].sent > timeout {
        return Ended(TimedOut), top, window;
      }
      var outcome := TrySend();
      if outcome == WouldBlock {
        return Ended(Blocked), top, window;
      } else if outcome == SocketFailed {
        return Ended(SocketError), top, window;
      }
      window := RecordSent(e, now, timeout);
      return Sent(e), top, window;
    }

    /**
     * One poll at a fixed instant: it comes to an end, sends only what is due, each entry no more often
     * than it has copies in the queues, and when it ends idle nothing in the heap is due. From an exact
     * index no packet is sent twice. Packets that were never sent go out before any that was in the heap
     * is repeated, and from an exact index, if ids and times of handing over go together, in the order
     * of their ids.
     */
    method PollResend(now: Time, timeout: Time) returns (result: PollResult, sent: seq<SendRecordId>)
      requires Valid() && timeout >= MAX_SEND_RTO
      requires Rto(srtt, srttDev) > 0
      modifies this`sendQueue, this`fullSendQueue, this`sendQueueIndices, this`srtt
      ensures Valid() && Rto(srtt, srttDev) >= old(Rto(srtt, srttDev))
      ensures SentWhenDue(old(fullSendQueue), fullSendQueue, sent, now, old(Rto(srtt, srttDev)))
      ensures UsesCopies(old(State()), sent) && NotTooOld(old(fullSendQueue), sent, now, timeout)
      ensures old(Exact()) ==> Exact() && SentOnce(old(fullSendQueue), sent)
      ensures FreshBeforeRepeated(old(sendQueueIndices), sent)
      ensures old(Exact() && Orderly(fullSendQueue)) ==> FreshAscend(sent)
      ensures result == Idle ==> NothingDue(sendQueue, now, Rto(srtt, srttDev))
      ensures result == TimedOut ==> exists k :: k in fullSendQueue && now - fullSendQueue[k].sent > timeout
    {
      hide Indexed, Live, Below, Kept, Rto, SentOnce, SentWhenDue, FilledUp, Unqueued, DueKeys, IsTop, Done, Renew,
           Renewed, Budget, UsesCopies, FreshBeforeRepeated, FreshAscend, FreshAhead, Orderly, NoneFreshBelow,
           AllFresh, NotTooOld;
      ghost var start, was, rto := State(), fullSendQueue, Rto(srtt, srttDev);
      ghost var rest := sendQueue;
      sent := [];
      NothingSentYet(was, now, rto);
      NothingDone(sendQueue, was.Keys, now, rto);
      NothingUsed(start, now, rto);
      NothingOrdered(start.indices, was);
      NothingTooOld(was, now, timeout);
      while true
        invariant Valid() && (old(Exact()) ==> Exact() && SentOnce(was, sent))
        invariant Rto(srtt, srttDev) >= rto
        invariant SentWhenDue(was, fullSendQueue, sent, now, rto)
        invariant Done(sendQueue, rest, fullSendQueue.Keys, now, rto)
        invariant Budget(start, State(), sent, now, rto)
        invariant AllFresh(sent) || Exact()
        invariant NotTooOld(was, sent, now, timeout)
        invariant FreshBeforeRepeated(start.indices, sent) && NoneFreshBelow(start.indices, State(), sent)
        invariant old(Exact() && Orderly(fullSendQueue)) ==>
                    Orderly(fullSendQueue) && FreshAscend(sent) && FreshAhead(sent, fullSendQueue)
        decreases if Exact() then 0 else 1, DueKeys(fullSendQueue, now, rto), |rest| + |Unqueued(State())|
      {
        ghost var before, exact, rtoNow := State(), Exact(), Rto(srtt, srttDev);
        RtoNeverShrinks(srtt, srttDev, timeout);
        var round, top, window := PollRound(now, timeout);
        match round
        case Ended(r) =>
          OnlyDueUsed(start, State(), was, fullSendQueue, sent, now, rto);
          return r, sent;
        case Dropped(e) =>
          rest := DoneDropped(before, State(), e, rest, now, rto);
          BudgetDropped(start, before, State(), e, sent, now, rto, window);
          DropKeepsBelow(start.indices, before, State(), e, sent, window);
        case Sent(e) =>
          TopIsInHeap(before.heap, e);
          assert e.Due(now, rtoNow) && e.Due(now, rto);
          rest := DoneSent(before, State(), e, rest, now, rto);
          BudgetSent(start, before, State(), e, sent, now, rto, rtoNow, window);
          SentKeepsBelow(start.indices, before, State(), e, sent, now, rtoNow, window);
          SentTimesStay(was, before.full, sent, now, rto, timeout, e);
          if exact { TopIsRecord(before, e); }
          if old(Exact() && Orderly(fullSendQueue)) {
            SentInOrder(before, State(), e, sent, now, rtoNow, window);
          }
          if old(Exact()) { SentOnceMore(was, before.full, sent, now, rto, e); }
          SentOneMore(was, before.full, sent, now, rto, e);
          sent := sent + [e];
      }
    }
  }

  ghost predicate NothingDue(heap: multiset<SendRecordId>, now: Time, rto: Time) {
    forall e {:trigger heap[e]} :: e in heap ==> !e.Due(now, rto)
  }

  /** What a round does, as far as it does not depend on the socket. */
  predicate Outcome(
    full: map<Key, SendRecord>, top: Option<SendRecordId>, now: Time, rto: Time, timeout: Time, round: Round)
  {
    match top
    case None => round == Ended(Idle)
    case Some(e) =>
      if e.key !in full then round == Dropped(e)
      else if e.tries > 0 && e.last > now - rto then round == Ended(Idle)
      else if now - full[e.key].sent > timeout then round == Ended(TimedOut)
      else round == Ended(Blocked) || round == Ended(SocketError) || round == Sent(e)
  }

  /** Nothing is sent that was handed over too long ago. */
  ghost predicate NotTooOld(was: map<Key, SendRecord>, sent: seq<SendRecordId>, now: Time, timeout: Time) {
    forall i {:trigger sent[i]} :: 0 <= i < |sent| ==>
      sent[i].key in was && now - was[sent[i].key].sent <= timeout
  }

  lemma NothingTooOld(was: map<Key, SendRecord>, now: Time, timeout: Time)
    ensures NotTooOld(was, [], now, timeout)
  {
  }

  /** Times of handing over never change. */
  lemma SentTimesStay(
    was: map<Key, SendRecord>, full: map<Key, SendRecord>, sent: seq<SendRecordId>, now: Time, rto: Time,
    timeout: Time, e: SendRecordId)
    requires SentWhenDue(was, full, sent, now, rto) && NotTooOld(was, sent, now, timeout)
    requires e.key in full && now - full[e.key].sent <= timeout
    ensures NotTooOld(was, sent + [e], now, timeout)
  {
    hide AfterSending;
    AfterSendingTimes(was, sent, now, e.key);
    assert forall i {:trigger (sent + [e])[i]} ::
        0 <= i <= |sent| ==> (sent + [e])[i] == if i < |sent| then sent[i] else e;
  }

  lemma {:induction false} AfterSendingTimes(was: map<Key, SendRecord>, sent: seq<SendRecordId>, now: Time, k: Key)
    requires k in was
    ensures k in AfterSending(was, sent, now) && AfterSending(was, sent, now)[k].sent == was[k].sent
  {
    if sent != [] {
      AfterSendingTimes(was, sent[..|sent| - 1], now, k);
    }
  }

  /** An entry at the top whose record was acked makes room for others. */
  ghost predicate DroppedTop(q: Queues, r: Queues, e: SendRecordId, window: nat) {
    IsTop(q.heap, e) && e.key !in q.full && FilledUp(q.(heap := q.heap - multiset{e}), r, window)
  }

  /** An entry at the top that is due is renewed with its record; a repetition rebuilds the heap. */
  ghost predicate SentTop(q: Queues, r: Queues, e: SendRecordId, now: Time, rto: Time, window: nat) {
    IsTop(q.heap, e) && e.key in q.full && e.Due(now, rto) && r.full == Renewed(q.full, e, now)
    && if e.tries == 0 then r == Renew(q, e, now)
       else FilledUp(Queues(multiset{}, r.full, Indices(0, 0)), r, window)
  }

  // ---------------------------------------------------------------- small facts about the queues

  lemma ExtendsItself(q: Queues)
    ensures Extends(q, q)
  {
    forall e
      ensures !Passed(q, q.indices, e)
    {
    }
  }

  lemma IndexedIsKept(q: Queues)
    requires Indexed(q)
    ensures Kept(q)
  {
  }

  lemma KeptIsKeyed(q: Queues)
    requires Kept(q)
    ensures Keyed(q.full)
  {
  }

  lemma NotEmptyIsLive(q: Queues)
    requires q.heap != multiset{}
    ensures Live(q)
  {
  }

  lemma EmptiedIsBelow(q: Queues, next: Indices)
    requires Below(q, next)
    ensures Below(Queues(multiset{}, q.full, Indices(0, 0)), next)
  {
  }

  lemma FilledUpExtends(q: Queues, r: Queues, window: nat)
    requires FilledUp(q, r, window)
    ensures Extends(q, r) && |r.heap| <= (if |q.heap| < window then window else |q.heap|)
  {
  }

  lemma UnqueuedKeys(q: Queues, r: Queues)
    requires q.full.Keys == r.full.Keys && q.indices == r.indices
    ensures Unqueued(q) == Unqueued(r)
  {
  }

  lemma InsertKeepsHeap(q: Queues, k: Key, now: Time)
    ensures Insert(q, k, now).heap == q.heap
  {
  }

  /**
   * The time from handing over to the ack counts as a round trip if the packet was sent exactly once: otherwise
   * nobody knows which sending was acked.
   */
  ghost predicate Measured(srtt: Time, srttDev: Time, rec: SendRecord, now: Time, srtt': Time, srttDev': Time) {
    if rec.id.tries == 1 && now >= rec.sent then
      var rtt := now - rec.sent;
      srtt' == srtt * 7 / 8 + rtt / 8
      && srttDev' == srttDev * 3 / 4 + (if rtt > srtt then rtt - srtt else srtt - rtt) / 4
    else srtt' == srtt && srttDev' == srttDev
  }

  /** The record that an ack removes, if there is one. */
  ghost function Acked(keys: set<Key>, t: QueueType, ackId: u16): set<Key> {
    if PendingIds(keys, t) == [] then {} else {Key(t, AckTarget(PendingIds(keys, t)[0], ackId))}
  }

  lemma SomeListed(full: map<Key, SendRecord>, t: QueueType, ids: seq<nat>)
    requires Lists(full, t, ids)
    ensures ids != [] ==> Key(t, ids[0]) in full
  {
  }

  // ---------------------------------------------------------------- one poll

  /** The records after these entries were sent, one after the other. */
  function AfterSending(full: map<Key, SendRecord>, sent: seq<SendRecordId>, now: Time): map<Key, SendRecord> {
    if sent == [] then full
    else
      var last := |sent| - 1;
      var before := AfterSending(full, sent[..last], now);
      if sent[last].key in before then Renewed(before, sent[last], now) else before
  }

  ghost predicate SentWhenDue(
    was: map<Key, SendRecord>, full: map<Key, SendRecord>, sent: seq<SendRecordId>, now: Time, rto: Time)
  {
    full == AfterSending(was, sent, now) && full.Keys == was.Keys
    && forall i {:trigger sent[i]} :: 0 <= i < |sent| ==> sent[i].key in was && sent[i].Due(now, rto)
  }

  /** No packet is sent twice, and each one as it was recorded. */
  ghost predicate SentOnce(was: map<Key, SendRecord>, sent: seq<SendRecordId>) {
    (forall i, j :: 0 <= i < j < |sent| ==> sent[i].key != sent[j].key)
    && forall i {:trigger sent[i]} :: 0 <= i < |sent| ==> sent[i].key in was && was[sent[i].key].id == sent[i]
  }

  lemma NothingSentYet(full: map<Key, SendRecord>, now: Time, rto: Time)
    ensures SentWhenDue(full, full, [], now, rto) && SentOnce(full, [])
  {
  }

  /** What was sent last is recorded as such; the other records are as they were. */
  lemma {:induction false} AfterSendingRecords(was: map<Key, SendRecord>, sent: seq<SendRecordId>, now: Time, k: Key)
    requires k in was
    ensures AfterSending(was, sent, now).Keys == was.Keys
    ensures AfterSending(was, sent, now)[k].id == was[k].id
            || exists i {:trigger sent[i]} :: 0 <= i < |sent| && AfterSending(was, sent, now)[k].id == sent[i].Sent(now)
    ensures forall i {:trigger sent[i]} :: 0 <= i < |sent| && sent[i].key == k ==>
              AfterSending(was, sent, now)[k].id.tries > 0 && AfterSending(was, sent, now)[k].id.last == now
    ensures (forall i {:trigger sent[i]} :: 0 <= i < |sent| ==> sent[i].key != k)
            ==> AfterSending(was, sent, now)[k] == was[k]
  {
    if sent != [] {
      var front, e := sent[..|sent| - 1], sent[|sent| - 1];
      AfterSendingRecords(was, front, now, k);
      assert forall i {:trigger sent[i]} :: 0 <= i < |sent| ==> sent[i] == if i < |front| then front[i] else e;
    }
  }

  lemma SentOneMore(
    was: map<Key, SendRecord>, full: map<Key, SendRecord>, sent: seq<SendRecordId>, now: Time, rto: Time,
    e: SendRecordId)
    requires SentWhenDue(was, full, sent, now, rto) && e.key in full && e.Due(now, rto)
    ensures SentWhenDue(was, Renewed(full, e, now), sent + [e], now, rto)
  {
    assert (sent + [e])[..|sent|] == sent;
    assert forall i {:trigger (sent + [e])[i]} ::
        0 <= i <= |sent| ==> (sent + [e])[i] == if i < |sent| then sent[i] else e;
  }

  lemma SentOnceMore(
    was: map<Key, SendRecord>, full: map<Key, SendRecord>, sent: seq<SendRecordId>, now: Time, rto: Time,
    e: SendRecordId)
    requires SentWhenDue(was, full, sent, now, rto) && SentOnce(was, sent)
    requires e.key in full && full[e.key].id == e && e.Due(now, rto) && rto > 0
    ensures SentOnce(was, sent + [e])
  {
    hide AfterSending;
    AfterSendingRecords(was, sent, now, e.key);
    assert forall i {:trigger sent[i]} :: 0 <= i < |sent| ==> sent[i].key != e.key;
  }

  lemma TopIsRecord(q: Queues, e: SendRecordId)
    requires Indexed(q) && IsTop(q.heap, e) && e.key in q.full
    ensures q.full[e.key].id == e
  {
  }

  // ---------------------------------------------------------------- a poll comes to an end

  ghost function DueKeys(full: map<Key, SendRecord>, now: Time, rto: Time): set<Key> {
    set k | k in full && full[k].id.Due(now, rto)
  }

  /** Apart from `rest`, the heap is made of records that are not due any more. */
  ghost predicate Done(heap: multiset<SendRecordId>, rest: multiset<SendRecordId>, keys: set<Key>, now: Time,
      rto: Time) {
    forall d {:trigger heap[d]} {:trigger rest[d]} ::
      rest[d] <= heap[d] && (rest[d] < heap[d] ==> d.key in keys && !d.Due(now, rto))
  }

  lemma NothingDone(heap: multiset<SendRecordId>, keys: set<Key>, now: Time, rto: Time)
    ensures Done(heap, heap, keys, now, rto)
  {
  }

  lemma DoneDropped(q: Queues, r: Queues, e: SendRecordId, rest: multiset<SendRecordId>, now: Time, rto: Time)
    returns (rest': multiset<SendRecordId>)
    requires Done(q.heap, rest, q.full.Keys, now, rto)
    requires exists window {:trigger DroppedTop(q, r, e, window)} :: DroppedTop(q, r, e, window)
    requires |r.heap| + |Unqueued(r)| == |q.heap| + |Unqueued(q)| - 1
    ensures Done(r.heap, rest', r.full.Keys, now, rto) && r.full == q.full
    ensures |rest'| + |Unqueued(r)| == |rest| + |Unqueued(q)| - 1
  {
    hide Unqueued, IsTop, Extends;
    var h := q.heap - multiset{e};
    TopIsInHeap(q.heap, e);
    assert e in rest;
    DropKeepsDone(q.heap, rest, e, q.full.Keys, now, rto);
    Removed(q.heap, e);
    Removed(rest, e);
    assert Extends(q.(heap := h), r);
    ExtendsGrows(q.(heap := h), r);
    rest' := rest - multiset{e} + (r.heap - h);
    GrowKeepsDone(h, r.heap, rest - multiset{e}, q.full.Keys, now, rto);
  }

  lemma ExtendsGrows(q: Queues, r: Queues)
    requires Extends(q, r)
    ensures r.full == q.full && forall d {:trigger q.heap[d]} :: q.heap[d] <= r.heap[d]
  {
  }

  lemma DropKeepsDone(
    heap: multiset<SendRecordId>, rest: multiset<SendRecordId>, e: SendRecordId, keys: set<Key>, now: Time, rto: Time)
    requires Done(heap, rest, keys, now, rto) && e in rest
    ensures Done(heap - multiset{e}, rest - multiset{e}, keys, now, rto)
  {
    Removed(heap, e);
    Removed(rest, e);
  }

  lemma GrowKeepsDone(
    h: multiset<SendRecordId>, heap: multiset<SendRecordId>, rest: multiset<SendRecordId>, keys: set<Key>, now: Time,
    rto: Time)
    requires Done(h, rest, keys, now, rto) && forall d {:trigger h[d]} :: h[d] <= heap[d]
    ensures Done(heap, rest + (heap - h), keys, now, rto)
    ensures |rest + (heap - h)| == |rest| + |heap| - |h|
  {
    Grown(h, heap);
  }

  lemma Grown<T(!new)>(h: multiset<T>, r: multiset<T>)
    requires forall d :: h[d] <= r[d]
    ensures |r - h| == |r| - |h|
    ensures forall d :: (r - h)[d] == r[d] - h[d]
  {
    assert r == h + (r - h);
  }

  lemma TopIsInHeap(heap: multiset<SendRecordId>, e: SendRecordId)
    requires IsTop(heap, e)
    ensures e in heap
  {
  }

  lemma DoneSent(q: Queues, r: Queues, e: SendRecordId, rest: multiset<SendRecordId>, now: Time, rto: Time)
    returns (rest': multiset<SendRecordId>)
    requires Done(q.heap, rest, q.full.Keys, now, rto) && rto > 0
    requires e in q.heap && e.key in q.full && e.Due(now, rto) && r.full == Renewed(q.full, e, now)
    requires e.tries == 0 ==> r == Renew(q, e, now)
    ensures Done(r.heap, rest', r.full.Keys, now, rto)
    ensures DueKeys(r.full, now, rto) <= DueKeys(q.full, now, rto)
    ensures q.full[e.key].id == e ==> DueKeys(r.full, now, rto) < DueKeys(q.full, now, rto)
    ensures e.tries == 0 ==> |rest'| + |Unqueued(r)| == |rest| + |Unqueued(q)| - 1
  {
    hide Unqueued;
    assert e in rest;
    assert !e.Sent(now).Due(now, rto);
    FewerDue(q.full, e, now, rto);
    if e.tries == 0 {
      RenewedHeap(q.heap, e, now);
      Removed(rest, e);
      UnqueuedKeys(q, r);
      rest' := rest - multiset{e};
    } else {
      rest' := r.heap;
    }
  }

  lemma FewerDue(full: map<Key, SendRecord>, e: SendRecordId, now: Time, rto: Time)
    requires e.key in full && e.Due(now, rto) && rto > 0
    ensures DueKeys(Renewed(full, e, now), now, rto) == DueKeys(full, now, rto) - {e.key}
    ensures full[e.key].id == e ==> e.key in DueKeys(full, now, rto)
  {
  }

  // ---------------------------------------------------------------- how often a packet is sent in a poll

  /** An entry as often as it is in the heap, and once more if it is a record that waits outside. */
  ghost function Copies(q: Queues, e: SendRecordId): nat {
    q.heap[e] + if e.key in q.full && q.full[e.key].id == e && q.indices.Get(e.key.typ) <= e.key.id then 1 else 0
  }

  /** Everything that is sent uses up a copy of its own. */
  ghost predicate UsesCopies(was: Queues, sent: seq<SendRecordId>) {
    forall e {:trigger multiset(sent)[e]} :: multiset(sent)[e] <= Copies(was, e)
  }

  ghost predicate Budget(was: Queues, q: Queues, sent: seq<SendRecordId>, now: Time, rto: Time) {
    forall e: SendRecordId {:trigger multiset(sent)[e]} {:trigger Copies(q, e)} ::
      e.Due(now, rto) ==> Copies(q, e) + multiset(sent)[e] <= Copies(was, e)
  }

  lemma NothingUsed(q: Queues, now: Time, rto: Time)
    ensures Budget(q, q, [], now, rto)
  {
  }

  /** Filling up moves records from outside into the heap. */
  lemma ExtendsKeepsCopies(q: Queues, r: Queues)
    requires Extends(q, r)
    ensures forall e {:trigger Copies(r, e)} {:trigger Copies(q, e)} :: Copies(r, e) == Copies(q, e)
  {
    forall e
      ensures Copies(r, e) == Copies(q, e)
    {
      assert r.heap[e] == q.heap[e] + if Passed(q, r.indices, e) then 1 else 0;
    }
  }

  lemma BudgetDropped(
    was: Queues, q: Queues, r: Queues, e: SendRecordId, sent: seq<SendRecordId>, now: Time, rto: Time, window: nat)
    requires Budget(was, q, sent, now, rto) && DroppedTop(q, r, e, window)
    ensures Budget(was, r, sent, now, rto)
  {
    hide Extends, IsTop, Fill;
    var dropped := q.(heap := q.heap - multiset{e});
    TopIsInHeap(q.heap, e);
    Removed(q.heap, e);
    ExtendsKeepsCopies(dropped, r);
    assert forall d {:trigger Copies(q, d)} :: Copies(dropped, d) <= Copies(q, d);
    forall d: SendRecordId | d.Due(now, rto)
      ensures Copies(r, d) + multiset(sent)[d] <= Copies(was, d)
    {
      assert Copies(dropped, d) <= Copies(q, d);
    }
  }

  /** Of what is due, nothing gets a copy by being sent, and what was sent loses one. */
  lemma SentUsesCopy(q: Queues, r: Queues, e: SendRecordId, now: Time, rto: Time, rtoNow: Time, window: nat,
      d: SendRecordId)
    requires Kept(q) && SentTop(q, r, e, now, rtoNow, window) && d.Due(now, rto) && rto > 0
    ensures Copies(r, d) + (if d == e then 1 else 0) <= Copies(q, d)
  {
    hide IsTop, Fill, Extends;
    TopIsInHeap(q.heap, e);
    assert d != e.Sent(now);
    if e.tries == 0 {
      RenewedHeap(q.heap, e, now);
      assert r.heap[d] == q.heap[d] - if d == e then 1 else 0;
    } else {
      var empty := Queues(multiset{}, r.full, Indices(0, 0));
      ExtendsKeepsCopies(empty, r);
      assert Copies(r, d) == Copies(empty, d);
      if d.key != e.key && d.key in q.full && q.full[d.key].id == d {
        assert d.key.id < q.indices.Get(d.key.typ) ==> d in q.heap;
      }
    }
  }

  lemma BudgetSent(
    was: Queues, q: Queues, r: Queues, e: SendRecordId, sent: seq<SendRecordId>,
    now: Time, rto: Time, rtoNow: Time, window: nat)
    requires Budget(was, q, sent, now, rto) && Kept(q) && SentTop(q, r, e, now, rtoNow, window) && rto > 0
    ensures Budget(was, r, sent + [e], now, rto)
  {
    hide Copies, Kept, SentTop;
    forall d: SendRecordId | d.Due(now, rto)
      ensures Copies(r, d) + multiset(sent + [e])[d] <= Copies(was, d)
    {
      SentUsesCopy(q, r, e, now, rto, rtoNow, window, d);
      assert multiset(sent + [e])[d] == multiset(sent)[d] + if d == e then 1 else 0;
    }
  }

  lemma OnlyDueUsed(
    was: Queues, q: Queues, full0: map<Key, SendRecord>, full: map<Key, SendRecord>, sent: seq<SendRecordId>,
    now: Time, rto: Time)
    requires Budget(was, q, sent, now, rto) && SentWhenDue(full0, full, sent, now, rto)
    ensures UsesCopies(was, sent)
  {
    hide Copies;
    forall e: SendRecordId
      ensures multiset(sent)[e] <= Copies(was, e)
    {
      if multiset(sent)[e] > 0 {
        assert e in sent;
        assert Copies(q, e) + multiset(sent)[e] <= Copies(was, e);
      }
    }
  }

  // ---------------------------------------------------------------- the order in which packets are sent

  /** Of the packets of one type that were never sent, higher ids were handed over no earlier. */
  ghost predicate Orderly(full: map<Key, SendRecord>) {
    forall j, k {:trigger full[j], full[k]} ::
      j in full && k in full && full[j].id.tries == 0 == full[k].id.tries && j.typ == k.typ && j.id < k.id ==>
        full[j].id.last <= full[k].id.last
  }

  /** Packets of one type are sent for the first time in the order of their ids. */
  predicate FreshAscend(sent: seq<SendRecordId>) {
    forall i, j {:trigger sent[i], sent[j]} ::
      0 <= i < j < |sent| && sent[i].tries == 0 == sent[j].tries && sent[i].key.typ == sent[j].key.typ ==>
        sent[i].key.id < sent[j].key.id
  }

  /** What is still to be sent for the first time has higher ids than what was. */
  ghost predicate FreshAhead(sent: seq<SendRecordId>, full: map<Key, SendRecord>) {
    forall i, k {:trigger sent[i], full[k]} ::
      0 <= i < |sent| && k in full && sent[i].tries == 0 == full[k].id.tries && sent[i].key.typ == k.typ ==>
        sent[i].key.id < k.id
  }

  /** A packet that is sent for the first time after a repetition was not in the heap at the start. */
  predicate FreshBeforeRepeated(start: Indices, sent: seq<SendRecordId>) {
    forall i, j {:trigger sent[i], sent[j]} :: 0 <= i < j < |sent| && sent[i].tries > 0 && sent[j].tries == 0 ==>
      start.Get(sent[j].key.typ) <= sent[j].key.id
  }

  predicate AllFresh(sent: seq<SendRecordId>) {
    forall i {:trigger sent[i]} :: 0 <= i < |sent| ==> sent[i].tries == 0
  }

  /** After the first repetition, nothing is left to be sent for the first time that was in the heap at the start. */
  ghost predicate NoneFreshBelow(start: Indices, q: Queues, sent: seq<SendRecordId>) {
    if AllFresh(sent) then start.command <= q.indices.command && start.low <= q.indices.low
    else forall k {:trigger q.full[k]} :: k in q.full && q.full[k].id.tries == 0 ==> start.Get(k.typ) <= k.id
  }

  lemma NothingOrdered(start: Indices, full: map<Key, SendRecord>)
    ensures AllFresh([]) && FreshBeforeRepeated(start, []) && FreshAscend([]) && FreshAhead([], full)
    ensures forall q: Queues {:trigger NoneFreshBelow(start, q, [])} ::
              q.indices == start ==> NoneFreshBelow(start, q, [])
  {
  }

  /** When a packet is sent for the first time, every other packet of its type that was never sent has a higher id. */
  lemma LowestFreshFirst(q: Queues, e: SendRecordId)
    requires Indexed(q) && Orderly(q.full) && IsTop(q.heap, e) && e.key in q.full && e.tries == 0
    ensures forall k {:trigger q.full[k]} ::
              k in q.full && k.typ == e.key.typ && k != e.key && q.full[k].id.tries == 0 ==> e.key.id < k.id
  {
    forall k {:trigger q.full[k]} | k in q.full && k.typ == e.key.typ && k != e.key && q.full[k].id.tries == 0
      ensures e.key.id < k.id
    {
      var d := q.full[k].id;
      assert d.key == k && q.full[e.key].id == e;
      assert k.id < e.key.id ==> d in q.heap;
    }
  }

  /** When a packet is repeated, nothing in the heap is pending and was never sent. */
  lemma RepeatedLast(q: Queues, e: SendRecordId)
    requires Kept(q) && IsTop(q.heap, e) && e.tries > 0
    ensures forall k {:trigger q.full[k]} :: k in q.full && q.full[k].id.tries == 0 ==> q.indices.Get(k.typ) <= k.id
  {
    forall k {:trigger q.full[k]} | k in q.full && q.full[k].id.tries == 0
      ensures q.indices.Get(k.typ) <= k.id
    {
      var d := q.full[k].id;
      assert k.id < q.indices.Get(k.typ) ==> d in q.heap;
    }
  }

  lemma DropKeepsBelow(start: Indices, q: Queues, r: Queues, e: SendRecordId, sent: seq<SendRecordId>, window: nat)
    requires NoneFreshBelow(start, q, sent) && DroppedTop(q, r, e, window)
    ensures NoneFreshBelow(start, r, sent)
  {
    hide IsTop, Fill;
  }

  lemma SentKeepsBelow(
    start: Indices, q: Queues, r: Queues, e: SendRecordId, sent: seq<SendRecordId>, now: Time, rto: Time, window: nat)
    requires Kept(q) && (AllFresh(sent) || Indexed(q)) && SentTop(q, r, e, now, rto, window)
    requires NoneFreshBelow(start, q, sent) && FreshBeforeRepeated(start, sent)
    ensures NoneFreshBelow(start, r, sent + [e]) && FreshBeforeRepeated(start, sent + [e])
    ensures AllFresh(sent + [e]) <==> AllFresh(sent) && e.tries == 0
  {
    hide IsTop, Fill, Extends;
    var more := sent + [e];
    assert forall i {:trigger more[i]} :: 0 <= i < |more| ==> more[i] == if i < |sent| then sent[i] else e;
    assert more[|sent|] == e;
    assert forall i {:trigger sent[i]} :: 0 <= i < |sent| ==> more[i] == sent[i];
    if e.tries > 0 {
      RepeatedLast(q, e);
    } else if !AllFresh(sent) {
      TopIsRecord(q, e);
    }
  }

  /** From an exact index, the first sendings come in the order of ids. */
  lemma SentInOrder(
    q: Queues, r: Queues, e: SendRecordId, sent: seq<SendRecordId>, now: Time, rto: Time, window: nat)
    requires Indexed(q) && Orderly(q.full) && FreshAscend(sent) && FreshAhead(sent, q.full)
    requires SentTop(q, r, e, now, rto, window)
    ensures Orderly(r.full) && FreshAscend(sent + [e]) && FreshAhead(sent + [e], r.full)
  {
    hide Indexed, IsTop, Fill, Extends;
    var more := sent + [e];
    assert forall i {:trigger more[i]} :: 0 <= i < |more| ==> more[i] == if i < |sent| then sent[i] else e;
    TopIsRecord(q, e);
    if e.tries == 0 { LowestFreshFirst(q, e); }
  }
}
