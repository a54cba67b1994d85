/**
 * The queue of received voice packets of one speaker: packets are kept in cyclic order of their
 * 16-bit ids, gaps are concealed, and the playing speed follows the fill level of the queue.
 */
module AudioQueue {
  import opened Prelude
  import opened SlidingWindow

  const CHANNEL_NUM := 2
  const MAX_BUFFER_SIZE := 24000
  const MAX_BUFFER_PACKETS := 50
  const MAX_BUFFER_TIME := 24000
  const SPEED_CHANGE_STEPS := 100
  const USUAL_FRAME_SIZE := 960
  const LAST_BUFFER_SIZE_COUNT: u8 := 255

  type Payload = Bytes

  datatype Packet = Packet(id: u16, payload: Payload, whisper: bool)

  /** A packet in the queue together with the number of samples it decodes to. */
  datatype QueuePacket = QueuePacket(packet: Packet, samples: nat)
  {
    function Id(): u16 { packet.id }
    predicate Ends() { |packet.payload| <= 1 }
  }

  // The foreign opus library.

  datatype Call = Call(payload: Option<Payload>, len: nat, fec: bool)

  /** What a decode call wrote into its output, and how many samples it reports or that it failed. */
  datatype Decoding = Decoding(out: seq<real>, samples: Option<nat>)

  /** The decoder has state: a result depends on all calls so far. */
  datatype Opus = Opus(nbSamples: Payload -> Option<nat>, decode: seq<Call> -> Decoding)

  ghost predicate Lawful(opus: Opus) {
    forall calls: seq<Call> {:trigger opus.decode(calls)} :: calls != [] ==>
      LawfulDecoding(calls[|calls| - 1].len, opus.decode(calls))
  }

  /** The reported samples, as stereo. */
  function FramesOf(d: Decoding): seq<real> {
    if d.samples.Some? && d.samples.value * CHANNEL_NUM <= |d.out| then d.out[..d.samples.value * CHANNEL_NUM]
    else d.out
  }

  predicate LawfulDecoding(len: nat, d: Decoding) {
    |d.out| == len * CHANNEL_NUM && (d.samples.Some? ==> d.samples.value <= len)
  }

  // Cyclic order.

  /** The id n steps on. */
  function Plus16(id: u16, n: nat): u16 {
    (id + n) % 0x1_0000
  }

  lemma Plus16Adds(id: u16, a: nat, b: nat)
    ensures Plus16(Plus16(id, a), b) == Plus16(id, a + b)
  {
  }

  lemma CloserByAStep(id: u16, nextId: u16, step: nat)
    requires step <= WrappingSub16(id, nextId)
    ensures WrappingSub16(id, Plus16(nextId, step)) == WrappingSub16(id, nextId) - step
  {
  }

  lemma DistanceIsInjective(a: u16, b: u16, nextId: u16)
    ensures WrappingSub16(a, nextId) == WrappingSub16(b, nextId) ==> a == b
  {
  }

  lemma ZeroDistance(id: u16, nextId: u16)
    ensures WrappingSub16(id, nextId) == 0 <==> id == nextId
  {
  }

  function Distance(p: QueuePacket, nextId: u16): u16 {
    WrappingSub16(p.Id(), nextId)
  }

  function Total(buffer: seq<QueuePacket>): nat {
    if buffer == [] then 0 else buffer[0].samples + Total(buffer[1..])
  }

  predicate Sane(p: QueuePacket) {
    p.samples <= MAX_BUFFER_SIZE && (p.Ends() ==> p.samples == 0)
  }

  /** Distances from the next id increase strictly, starting at `low`, and are at most 50. */
  predicate Queued(buffer: seq<QueuePacket>, nextId: u16, low: nat) {
    buffer == [] ||
    (Sane(buffer[0]) && low <= Distance(buffer[0], nextId) <= MAX_BUFFER_PACKETS
     && Queued(buffer[1..], nextId, Distance(buffer[0], nextId) + 1))
  }

  /** The same, stated for all pairs of packets. */
  lemma {:induction false} QueuedIsStrictlyIncreasing(buffer: seq<QueuePacket>, nextId: u16, low: nat)
    ensures Queued(buffer, nextId, low) <==>
            && (forall i {:trigger buffer[i]} :: 0 <= i < |buffer| ==>
                 Sane(buffer[i]) && low <= Distance(buffer[i], nextId) <= MAX_BUFFER_PACKETS)
            && (forall i, j {:trigger buffer[i], buffer[j]} :: 0 <= i < j < |buffer| ==>
                  Distance(buffer[i], nextId) < Distance(buffer[j], nextId))
  {
    if buffer != [] {
      var rest, d: nat := buffer[1..], Distance(buffer[0], nextId);
      QueuedIsStrictlyIncreasing(rest, nextId, d + 1);
      assert forall i {:trigger buffer[i]} :: 0 < i < |buffer| ==> buffer[i] == rest[i - 1];
      assert forall i {:trigger rest[i]} :: 0 <= i < |rest| ==> rest[i] == buffer[i + 1];
    }
  }

  /** So the queue has no more packets than ids up to its last one: the gap count never underflows. */
  lemma {:induction false} LastIsFarEnough(buffer: seq<QueuePacket>, nextId: u16, low: nat)
    requires Queued(buffer, nextId, low) && buffer != []
    ensures low + |buffer| <= Distance(buffer[|buffer| - 1], nextId) + 1 <= MAX_BUFFER_PACKETS + 1
  {
    if |buffer| > 1 {
      LastIsFarEnough(buffer[1..], nextId, Distance(buffer[0], nextId) + 1);
    }
  }

  lemma {:induction false} Advance(buffer: seq<QueuePacket>, nextId: u16, low: nat, step: nat)
    requires Queued(buffer, nextId, low) && step <= low
    ensures Queued(buffer, Plus16(nextId, step), low - step)
  {
    hide WrappingSub16, Plus16;
    if buffer != [] {
      CloserByAStep(buffer[0].Id(), nextId, step);
      Advance(buffer[1..], nextId, Distance(buffer[0], nextId) + 1, step);
    }
  }

  lemma {:induction false} Loosen(buffer: seq<QueuePacket>, nextId: u16, low: nat, low': nat)
    requires Queued(buffer, nextId, low) && low' <= low
    ensures Queued(buffer, nextId, low')
  {
  }

  lemma {:induction false} Suffix(buffer: seq<QueuePacket>, nextId: u16, low: nat, k: nat)
    requires Queued(buffer, nextId, low) && k < |buffer|
    ensures low + k <= Distance(buffer[k], nextId) <= MAX_BUFFER_PACKETS
    ensures Queued(buffer[k..], nextId, Distance(buffer[k], nextId))
  {
    if k > 0 {
      Suffix(buffer[1..], nextId, Distance(buffer[0], nextId) + 1, k - 1);
      assert buffer[1..][k - 1..] == buffer[k..];
    }
  }

  // Inserting.

  function Insert(buffer: seq<QueuePacket>, i: nat, p: QueuePacket): (r: seq<QueuePacket>)
    requires i <= |buffer|
    ensures |r| == |buffer| + 1
  {
    buffer[..i] + [p] + buffer[i..]
  }

  /** i is the number of packets before `id`. */
  predicate SplitsAt(buffer: seq<QueuePacket>, nextId: u16, id: u16, i: nat) {
    i <= |buffer|
    && (i > 0 ==> Distance(buffer[i - 1], nextId) < WrappingSub16(id, nextId))
    && (i < |buffer| ==> Distance(buffer[i], nextId) >= WrappingSub16(id, nextId))
  }

  /** The number of packets before `id`. */
  function PlaceOf(buffer: seq<QueuePacket>, nextId: u16, id: u16): (i: nat)
    ensures i <= |buffer|
  {
    if buffer == [] || Distance(buffer[0], nextId) >= WrappingSub16(id, nextId) then 0
    else 1 + PlaceOf(buffer[1..], nextId, id)
  }

  lemma {:induction false} SplitIsPlace(buffer: seq<QueuePacket>, nextId: u16, low: nat, id: u16, i: nat)
    requires Queued(buffer, nextId, low) && SplitsAt(buffer, nextId, id, i)
    ensures i == PlaceOf(buffer, nextId, id)
  {
    hide WrappingSub16;
    if i > 0 {
      QueuedPrefix(buffer, nextId, low, i);
      SplitIsPlace(buffer[1..], nextId, Distance(buffer[0], nextId) + 1, id, i - 1);
    }
  }

  lemma {:induction false} InsertKeepsOrder(buffer: seq<QueuePacket>, nextId: u16, low: nat, i: nat, p: QueuePacket)
    requires Queued(buffer, nextId, low) && Sane(p)
    requires low <= Distance(p, nextId) <= MAX_BUFFER_PACKETS
    requires SplitsAt(buffer, nextId, p.Id(), i)
    requires i < |buffer| ==> buffer[i].Id() != p.Id()
    ensures Queued(Insert(buffer, i, p), nextId, low)
    ensures Total(Insert(buffer, i, p)) == Total(buffer) + p.samples
  {
    hide WrappingSub16;
    var buffer' := Insert(buffer, i, p);
    if i == 0 {
      assert buffer'[1..] == buffer;
      if buffer != [] {
        DistanceIsInjective(buffer[0].Id(), p.Id(), nextId);
      }
    } else {
      if i > 1 {
        Suffix(buffer, nextId, low, i - 1);
      }
      QueuedPrefix(buffer, nextId, low, i);
      InsertKeepsOrder(buffer[1..], nextId, Distance(buffer[0], nextId) + 1, i - 1, p);
      assert buffer'[1..] == Insert(buffer[1..], i - 1, p);
    }
  }

  lemma {:induction false} QueuedPrefix(buffer: seq<QueuePacket>, nextId: u16, low: nat, i: nat)
    requires Queued(buffer, nextId, low) && 0 < i <= |buffer|
    ensures Distance(buffer[0], nextId) <= Distance(buffer[i - 1], nextId)
  {
    Suffix(buffer, nextId, low, 0);
    if i > 1 {
      Suffix(buffer[1..], nextId, Distance(buffer[0], nextId) + 1, i - 2);
    }
  }

  /** An id is in the queue exactly if it is found at the place where it would be inserted. */
  lemma DuplicateIsAtSplit(buffer: seq<QueuePacket>, nextId: u16, id: u16, i: nat)
    requires Queued(buffer, nextId, 0) && SplitsAt(buffer, nextId, id, i)
    ensures (exists p {:trigger p in buffer} :: p in buffer && p.Id() == id) <==> i < |buffer| && buffer[i].Id() == id
  {
    QueuedIsStrictlyIncreasing(buffer, nextId, 0);
    var d := WrappingSub16(id, nextId);
    assert forall k {:trigger buffer[k]} :: 0 <= k < i ==> Distance(buffer[k], nextId) < d;
    assert forall k {:trigger buffer[k]} :: i < k < |buffer| ==> Distance(buffer[k], nextId) > d;
    assert forall k {:trigger buffer[k]} :: 0 <= k < |buffer| && buffer[k].Id() == id ==> k == i;
    if i < |buffer| {
      assert buffer[i] in buffer;
    }
  }

  // What became of every id.

  /** What was done at one position of the stream. */
  datatype Treatment =
    | Decoded(p: QueuePacket)              // the packet of this position was decoded
    | Recovered(p: QueuePacket)            // decoded from the redundancy in the next packet
    | Concealed                            // neither was there
    | Skipped(dropped: Option<QueuePacket>) // truncated

  predicate Fits(t: Treatment, id: u16) {
    match t
    case Decoded(p) => p.Id() == id
    case Recovered(p) => p.Id() == Plus16(id, 1)
    case Concealed => true
    case Skipped(p) => p.Some? ==> p.value.Id() == id
  }

  /** One treatment per position since `firstId`. */
  ghost predicate History(history: seq<Treatment>, firstId: u16) {
    forall k {:trigger history[k]} :: 0 <= k < |history| ==> Fits(history[k], Plus16(firstId, k))
  }

  /** The packets that were used up at their own position. */
  function Used(history: seq<Treatment>): seq<QueuePacket> {
    if history == [] then []
    else
      var rest := Used(history[..|history| - 1]);
      match history[|history| - 1]
      case Decoded(p) => rest + [p]
      case Recovered(_) => rest
      case Concealed => rest
      case Skipped(p) => if p.Some? then rest + [p.value] else rest
  }

  lemma {:induction false} UsedAppend(a: seq<Treatment>, b: seq<Treatment>)
    ensures Used(a + b) == Used(a) + Used(b)
  {
    if b == [] {
      assert a + b == a;
    } else {
      var b' := b[..|b| - 1];
      assert (a + b)[..|a + b| - 1] == a + b';
      UsedAppend(a, b');
    }
  }

  lemma {:induction false} UsedOf(t: Treatment)
    ensures Used([t]) == match t
              case Decoded(p) => [p]
              case Recovered(_) => []
              case Concealed => []
              case Skipped(p) => if p.Some? then [p.value] else []
  {
    assert [t][..0] == [];
  }

  /** The positions of the packets that were used up. */
  function Positions(history: seq<Treatment>): seq<nat> {
    if history == [] then []
    else
      var last := |history| - 1;
      var rest := Positions(history[..last]);
      if history[last].Decoded? || (history[last].Skipped? && history[last].dropped.Some?) then rest + [last] else rest
  }

  /** The packets have strictly increasing positions below n, each the one its id names. */
  ghost predicate InOrder(packets: seq<QueuePacket>, positions: seq<nat>, firstId: u16, n: nat) {
    |packets| == |positions|
    && (forall i {:trigger packets[i]} {:trigger positions[i]} :: 0 <= i < |packets| ==>
          positions[i] < n && packets[i].Id() == Plus16(firstId, positions[i]))
    && (forall i, j {:trigger positions[i], positions[j]} :: 0 <= i < j < |positions| ==> positions[i] < positions[j])
  }

  /** Packets leave the queue in order, hence none twice. */
  lemma {:induction false} UsedInOrder(history: seq<Treatment>, firstId: u16)
    requires History(history, firstId)
    ensures InOrder(Used(history), Positions(history), firstId, |history|)
  {
    hide Plus16, InOrder;
    if history == [] {
      OrderOfNone(firstId);
    } else {
      var last := |history| - 1;
      var rest := history[..last];
      assert forall k {:trigger rest[k]} :: 0 <= k < last ==> rest[k] == history[k];
      UsedInOrder(rest, firstId);
      assert Fits(history[last], Plus16(firstId, last));
      match history[last]
      case Decoded(p) => OrderOfNext(Used(rest), Positions(rest), firstId, last, p);
      case Skipped(Some(p)) => OrderOfNext(Used(rest), Positions(rest), firstId, last, p);
      case _ => OrderLoosened(Used(rest), Positions(rest), firstId, last);
    }
  }

  lemma OrderOfNone(firstId: u16)
    ensures InOrder([], [], firstId, 0)
  {
  }

  lemma OrderLoosened(packets: seq<QueuePacket>, positions: seq<nat>, firstId: u16, n: nat)
    requires InOrder(packets, positions, firstId, n)
    ensures InOrder(packets, positions, firstId, n + 1)
  {
  }

  lemma OrderOfNext(packets: seq<QueuePacket>, positions: seq<nat>, firstId: u16, n: nat, p: QueuePacket)
    requires InOrder(packets, positions, firstId, n) && p.Id() == Plus16(firstId, n)
    ensures InOrder(packets + [p], positions + [n], firstId, n + 1)
  {
    hide Plus16;
    var packets', positions' := packets + [p], positions + [n];
    forall i | 0 <= i < |packets'|
      ensures positions'[i] < n + 1 && packets'[i].Id() == Plus16(firstId, positions'[i])
    {
      assert i < |packets| ==> packets'[i] == packets[i] && positions'[i] == positions[i];
    }
    forall i, j | 0 <= i < j < |positions'|
      ensures positions'[i] < positions'[j]
    {
      assert positions'[i] == positions[i];
      assert j < |positions| ==> positions'[j] == positions[j];
    }
  }

  /** The treatments when the first n positions are thrown away. */
  function Skips(dropped: seq<QueuePacket>, nextId: u16, n: nat): seq<Treatment>
    decreases n
  {
    if n == 0 then []
    else if dropped != [] && dropped[0].Id() == nextId then
      [Skipped(Some(dropped[0]))] + Skips(dropped[1..], Plus16(nextId, 1), n - 1)
    else
      [Skipped(None)] + Skips(dropped, Plus16(nextId, 1), n - 1)
  }

  lemma {:induction false} SkipsTreatAll(dropped: seq<QueuePacket>, nextId: u16, n: nat)
    requires Queued(dropped, nextId, 0)
    requires dropped != [] ==> Distance(dropped[|dropped| - 1], nextId) < n
    ensures Used(Skips(dropped, nextId, n)) == dropped
    decreases n
  {
    hide WrappingSub16, Plus16, Used;
    if n > 0 {
      var next := Plus16(nextId, 1);
      var front := dropped != [] && dropped[0].Id() == nextId;
      var rest := if front then dropped[1..] else dropped;
      var t := if front then Skipped(Some(dropped[0])) else Skipped(None);
      assert Queued(rest, nextId, 1) by {
        if dropped != [] {
          ZeroDistance(dropped[0].Id(), nextId);
        }
      }
      OneCloser(rest, nextId);
      assert rest != [] ==> rest[|rest| - 1] == dropped[|dropped| - 1];
      SkipsTreatAll(rest, next, n - 1);
      UsedAppend([t], Skips(rest, next, n - 1));
      UsedOf(t);
    } else {
      assert dropped == [];
      UsedOfNone();
    }
  }

  lemma UsedOfNone()
    ensures Used([]) == []
  {
  }

  lemma {:induction false} OneCloser(buffer: seq<QueuePacket>, nextId: u16)
    requires Queued(buffer, nextId, 1)
    ensures Queued(buffer, Plus16(nextId, 1), 0)
    ensures buffer != [] ==>
              Distance(buffer[|buffer| - 1], Plus16(nextId, 1)) == Distance(buffer[|buffer| - 1], nextId) - 1
  {
    hide WrappingSub16, Plus16;
    Advance(buffer, nextId, 1, 1);
    if buffer != [] {
      LastIsFarEnough(buffer, nextId, 1);
      CloserByAStep(buffer[|buffer| - 1].Id(), nextId, 1);
    }
  }

  lemma {:induction false} SkipsFit(dropped: seq<QueuePacket>, nextId: u16, n: nat)
    ensures |Skips(dropped, nextId, n)| == n
    ensures History(Skips(dropped, nextId, n), nextId)
    decreases n
  {
    hide Plus16, History;
    if n > 0 {
      var next := Plus16(nextId, 1);
      var front := dropped != [] && dropped[0].Id() == nextId;
      var rest := if front then dropped[1..] else dropped;
      var t := if front then Skipped(Some(dropped[0])) else Skipped(None);
      SkipsFit(rest, next, n - 1);
      assert Plus16(nextId, 0) == nextId by {
        PlusZero(nextId);
      }
      HistoryOf(t, nextId);
      HistoryAppend([t], Skips(rest, next, n - 1), nextId);
    } else {
      HistoryOf(Concealed, nextId);
    }
  }

  lemma PlusZero(id: u16)
    ensures Plus16(id, 0) == id
  {
  }

  lemma HistoryOf(t: Treatment, firstId: u16)
    requires Fits(t, firstId)
    ensures History([t], firstId) && History([], firstId)
  {
  }

  lemma HistoryAppend(a: seq<Treatment>, b: seq<Treatment>, firstId: u16)
    requires History(a, firstId) && History(b, Plus16(firstId, |a|))
    ensures History(a + b, firstId)
  {
    hide Plus16;
    var c := a + b;
    forall k | 0 <= k < |c|
      ensures Fits(c[k], Plus16(firstId, k))
    {
      if k >= |a| {
        assert c[k] == b[k - |a|];
        Plus16Adds(firstId, |a|, k - |a|);
      } else {
        assert c[k] == a[k];
      }
    }
  }

  // Truncating.

  /** The number of samples in the last k packets. */
  function TailSamples(buffer: seq<QueuePacket>, k: nat): nat
    requires k <= |buffer|
  {
    Total(buffer[|buffer| - k..])
  }

  /** Keep as many packets from the back as stay below the limit, and no more. */
  predicate KeepsUpTo(buffer: seq<QueuePacket>, limit: int, keep: nat) {
    keep <= |buffer|
    && (keep > 0 ==> TailSamples(buffer, keep) < limit)
    && (keep < |buffer| ==> TailSamples(buffer, keep + 1) >= limit)
  }

  lemma TailGrows(buffer: seq<QueuePacket>, k: nat)
    requires k < |buffer|
    ensures TailSamples(buffer, k + 1) == buffer[|buffer| - k - 1].samples + TailSamples(buffer, k)
  {
    assert buffer[|buffer| - (k + 1)..][1..] == buffer[|buffer| - k..];
  }

  lemma PlusDistance(id: u16, nextId: u16)
    ensures Plus16(nextId, WrappingSub16(id, nextId)) == id
  {
  }

  lemma {:induction false} Prefix(buffer: seq<QueuePacket>, nextId: u16, low: nat, k: nat)
    requires Queued(buffer, nextId, low) && k < |buffer|
    ensures Queued(buffer[..k], nextId, low)
    ensures k > 0 ==> Distance(buffer[..k][k - 1], nextId) < Distance(buffer[k], nextId)
  {
    hide WrappingSub16;
    if k > 0 {
      Prefix(buffer[1..], nextId, Distance(buffer[0], nextId) + 1, k - 1);
      assert buffer[1..][..k - 1] == buffer[..k][1..];
      Suffix(buffer, nextId, low, k - 1);
      assert buffer[k - 1..][1..] == buffer[k..];
    }
  }

  /** Throwing away the packets before the k-th treats all positions before it. */
  lemma SkippingTo(buffer: seq<QueuePacket>, nextId: u16, k: nat)
    requires Queued(buffer, nextId, 0) && k < |buffer|
    ensures var d := Distance(buffer[k], nextId);
      var skips := Skips(buffer[..k], nextId, d);
      && Queued(buffer[k..], buffer[k].Id(), 0) && Plus16(nextId, d) == buffer[k].Id()
      && |skips| == d && Used(skips) == buffer[..k] && History(skips, nextId)
  {
    hide WrappingSub16, Plus16, History, Used, Skips;
    var d := Distance(buffer[k], nextId);
    Suffix(buffer, nextId, 0, k);
    Advance(buffer[k..], nextId, d, d);
    PlusDistance(buffer[k].Id(), nextId);
    Prefix(buffer, nextId, 0, k);
    SkipsTreatAll(buffer[..k], nextId, d);
    SkipsFit(buffer[..k], nextId, d);
  }

  // What to decode next.

  datatype Plan =
    | Idle    // nothing there
    | Stop    // the stream ended
    | Play    // the next packet
    | Recover // a lost packet, from the one after it
    | Conceal // a lost packet

  function PlanFor(buffer: seq<QueuePacket>, nextId: u16): Plan {
    if buffer == [] then Idle
    else if buffer[0].Ends() then Stop
    else if buffer[0].Id() == nextId then Play
    else if buffer[0].Id() == Plus16(nextId, 1) then Recover
    else Conceal
  }

  predicate Holds(buffer: seq<QueuePacket>, id: u16) {
    exists p {:trigger p in buffer} :: p in buffer && p.Id() == id
  }

  /** As the queue is in order, its front tells whether a packet is there at all. */
  lemma PlanIsRight(buffer: seq<QueuePacket>, nextId: u16)
    requires Queued(buffer, nextId, 0) && buffer != [] && !buffer[0].Ends()
    ensures PlanFor(buffer, nextId) ==
            if Holds(buffer, nextId) then Play else if Holds(buffer, Plus16(nextId, 1)) then Recover else Conceal
  {
    var next := Plus16(nextId, 1);
    PlaceOfFront(buffer, nextId, nextId);
    if buffer[0].Id() != nextId {
      Advance(buffer, nextId, 1, 1);
      PlaceOfFront(buffer, next, next);
    }
  }

  lemma PlaceOfFront(buffer: seq<QueuePacket>, nextId: u16, id: u16)
    requires Queued(buffer, nextId, 0) && buffer != [] && id == nextId
    ensures Holds(buffer, id) <==> buffer[0].Id() == id
    ensures buffer[0].Id() != id ==> Queued(buffer, nextId, 1)
  {
    ZeroDistance(id, nextId);
    ZeroDistance(buffer[0].Id(), nextId);
    DuplicateIsAtSplit(buffer, nextId, id, 0);
  }

  // Speeding up.

  /** The first n blocks of a hundred stereo samples, each without its first one. */
  function Kept(frames: seq<real>, n: nat): (r: seq<real>)
    requires n * BLOCK <= |frames|
    ensures |r| == n * (BLOCK - CHANNEL_NUM)
  {
    if n == 0 then [] else Kept(frames, n - 1) + frames[(n - 1) * BLOCK + CHANNEL_NUM..n * BLOCK]
  }

  const BLOCK := SPEED_CHANGE_STEPS * CHANNEL_NUM

  function Thinned(frames: seq<real>): seq<real> {
    var n := |frames| / BLOCK;
    Kept(frames, n) + frames[n * BLOCK..]
  }

  /** One stereo sample is left out in front of every 99. */
  lemma {:induction false} KeptAt(frames: seq<real>, n: nat, j: nat)
    requires n * BLOCK <= |frames| && j < n * (BLOCK - CHANNEL_NUM)
    ensures j + (j / (BLOCK - CHANNEL_NUM) + 1) * CHANNEL_NUM < |frames|
    ensures Kept(frames, n)[j] == frames[j + (j / (BLOCK - CHANNEL_NUM) + 1) * CHANNEL_NUM]
  {
    if j < (n - 1) * (BLOCK - CHANNEL_NUM) {
      KeptAt(frames, n - 1, j);
    } else {
      assert j / (BLOCK - CHANNEL_NUM) == n - 1;
    }
  }

  /** The buffer brought to a length, with silence if it grows. */
  function Resize(buffer: seq<real>, length: nat): (r: seq<real>)
    ensures |r| == length
  {
    if length <= |buffer| then buffer[..length] else buffer + seq(length - |buffer|, _ => 0.0)
  }

  // What comes out.

  /** One decoded packet, and the sizes that were noted up to then, the last of them for this packet. */
  datatype Piece = Piece(frames: seq<real>, sizes: seq<int>) {
    ghost predicate IsThinned() {
      frames != [] && sizes != [] && PaceOf(Last(sizes, LAST_BUFFER_SIZE_COUNT)) == Faster
    }

    ghost function Heard(): seq<real> {
      if IsThinned() then Thinned(frames) else frames
    }
  }

  /** The position up to which these pieces were decoded. */
  function EndOf(pos: nat, pieces: seq<Piece>): nat {
    if pieces == [] then pos else EndOf(pos, pieces[..|pieces| - 1]) + |pieces[|pieces| - 1].frames|
  }

  /** Every piece goes behind what was decoded before it. */
  ghost function Assembled(buffer: seq<real>, pos: nat, pieces: seq<Piece>): seq<real> {
    if pieces == [] then buffer
    else
      var front, last := pieces[..|pieces| - 1], pieces[|pieces| - 1];
      Resize(Assembled(buffer, pos, front), EndOf(pos, front)) + last.Heard()
  }

  /** The frames are those that the last of these calls gave. */
  predicate IsFrom(opus: Opus, calls: seq<Call>, frames: seq<real>) {
    var d := opus.decode(calls);
    d.samples.Some? && frames == FramesOf(d) && |frames| == d.samples.value * CHANNEL_NUM
  }

  /** Piece i is what the decoder made of call number `from + i`. */
  ghost predicate DecodedBy(opus: Opus, calls: seq<Call>, from: nat, pieces: seq<Piece>) {
    from + |pieces| <= |calls|
    && forall i {:trigger pieces[i]} :: 0 <= i < |pieces| ==> IsFrom(opus, calls[..from + i + 1], pieces[i].frames)
  }

  ghost predicate OneNoted(before: seq<int>, after: seq<int>) {
    exists waiting: nat {:trigger Noted(before, waiting)} :: after == Noted(before, waiting)
  }

  /** With every piece at most one size is noted. */
  ghost predicate NotedAlong(sizes: seq<int>, pieces: seq<Piece>) {
    forall i {:trigger pieces[i]} :: 0 <= i < |pieces| ==> OneNoted(SizesBefore(sizes, pieces, i), pieces[i].sizes)
  }

  function SizesBefore(sizes: seq<int>, pieces: seq<Piece>, i: nat): seq<int>
    requires i <= |pieces|
  {
    if i == 0 then sizes else pieces[i - 1].sizes
  }

  lemma OneMorePiece(
    opus: Opus, calls: seq<Call>, more: seq<Call>, from: nat, pieces: seq<Piece>, piece: Piece, sizes: seq<int>)
    requires DecodedBy(opus, calls, from, pieces) && NotedAlong(sizes, pieces)
    requires |calls| == from + |pieces| && |more| == |calls| + 1 && more[..|calls|] == calls
    requires IsFrom(opus, more, piece.frames) && OneNoted(SizesBefore(sizes, pieces, |pieces|), piece.sizes)
    ensures DecodedBy(opus, more, from, pieces + [piece]) && NotedAlong(sizes, pieces + [piece])
    ensures SizesBefore(sizes, pieces + [piece], |pieces| + 1) == piece.sizes
  {
    hide OneNoted, IsFrom;
    var all := pieces + [piece];
    DecodedByMore(opus, calls, more, from, pieces);
    forall i | 0 <= i < |all|
      ensures IsFrom(opus, more[..from + i + 1], all[i].frames)
      ensures OneNoted(SizesBefore(sizes, all, i), all[i].sizes)
    {
      if i < |pieces| {
        assert all[i] == pieces[i];
      } else {
        assert more[..from + i + 1] == more;
      }
    }
  }

  function Joined(pieces: seq<Piece>): seq<real> {
    if pieces == [] then [] else Joined(pieces[..|pieces| - 1]) + pieces[|pieces| - 1].frames
  }

  /** If nothing is thinned out, the decoded frames come out one after the other. */
  lemma {:induction false} PlainPiecesAreJoined(pieces: seq<Piece>)
    requires forall i {:trigger pieces[i]} :: 0 <= i < |pieces| ==> !pieces[i].IsThinned()
    ensures Assembled([], 0, pieces) == Joined(pieces) && EndOf(0, pieces) == |Joined(pieces)|
    decreases |pieces|
  {
    hide Resize, Thinned, PaceOf;
    if pieces != [] {
      var front := pieces[..|pieces| - 1];
      PlainPiecesAreJoined(front);
      ResizedToItself(Joined(front));
    }
  }

  lemma ResizedToItself(buffer: seq<real>)
    ensures Resize(buffer, |buffer|) == buffer
  {
  }

  lemma NoPieces(opus: Opus, calls: seq<Call>, sizes: seq<int>, buffer: seq<real>, pos: nat)
    ensures DecodedBy(opus, calls, |calls|, []) && NotedAlong(sizes, [])
    ensures Assembled(buffer, pos, []) == buffer && EndOf(pos, []) == pos
  {
  }

  lemma NotedOnce(after: seq<int>, before: seq<int>, waiting: nat)
    requires after == Noted(before, waiting) && before != []
    ensures OneNoted(before, after) && after != []
  {
  }

  lemma DecodedByMore(opus: Opus, calls: seq<Call>, more: seq<Call>, from: nat, pieces: seq<Piece>)
    requires DecodedBy(opus, calls, from, pieces) && |calls| <= |more| && more[..|calls|] == calls
    ensures DecodedBy(opus, more, from, pieces)
  {
    hide IsFrom;
    forall i {:trigger pieces[i]} | 0 <= i < |pieces|
      ensures IsFrom(opus, more[..from + i + 1], pieces[i].frames)
    {
      assert more[..from + i + 1] == calls[..from + i + 1];
    }
  }

  lemma AssembledOneMore(buffer: seq<real>, pos: nat, pieces: seq<Piece>, piece: Piece)
    ensures Assembled(buffer, pos, pieces + [piece]) ==
            Resize(Assembled(buffer, pos, pieces), EndOf(pos, pieces)) + piece.Heard()
    ensures EndOf(pos, pieces + [piece]) == EndOf(pos, pieces) + |piece.frames|
  {
    hide Resize;
    assert (pieces + [piece])[..|pieces|] == pieces;
  }

  lemma HeardIs(piece: Piece)
    requires piece.sizes != []
    ensures piece.Heard() ==
            if |piece.frames| > 0 && PaceOf(Last(piece.sizes, LAST_BUFFER_SIZE_COUNT)) == Faster
            then Thinned(piece.frames) else piece.frames
  {
  }

  /** The samples of the last call that were not taken. */
  function LeftOver(buffer: seq<real>, pos: nat): seq<real> {
    if pos < |buffer| then buffer[pos..] else []
  }

  /** What was left over from the call before is lost as soon as anything is decoded. */
  lemma {:induction false} LeftoversAreLost(buffer: seq<real>, pieces: seq<Piece>)
    requires pieces != []
    ensures Assembled(buffer, 0, pieces) == Assembled([], 0, pieces)
    decreases |pieces|
  {
    var front := pieces[..|pieces| - 1];
    if front != [] {
      LeftoversAreLost(buffer, front);
    } else {
      assert Resize(buffer, 0) == Resize([], 0);
    }
  }

  // Errors and results.

  datatype AddError = QueueFull | GetPacketSample | TooManySamples | TooLate(wanted: u16, got: u16) | Duplicate(id: u16)

  datatype Output =
    | Buffering                     // nothing to play yet
    | Data(samples: seq<real>)
    | Ended(samples: seq<real>)     // the speaker stopped
    | Failed                        // the decoder reported an error
    | OutOfRange                    // fewer samples than asked for: the slice panics

  /** Samples of a packet, or why it is refused. */
  function SamplesOf(opus: Opus, payload: Payload): (r: (Option<AddError>, nat)) {
    if |payload| <= 1 then (None, 0)
    else match opus.nbSamples(payload)
      case None => (Some(GetPacketSample), 0)
      case Some(n) => if n > MAX_BUFFER_SIZE then (Some(TooManySamples), n) else (None, n)
  }

  /** The reason to refuse a packet. */
  function Refusal(opus: Opus, buffer: seq<QueuePacket>, nextId: u16, packet: Packet): Option<AddError> {
    if |buffer| >= MAX_BUFFER_PACKETS then Some(QueueFull)
    else if SamplesOf(opus, packet.payload).0.Some? then SamplesOf(opus, packet.payload).0
    else if WrappingSub16(packet.id, nextId) > MAX_BUFFER_PACKETS then Some(TooLate(nextId, packet.id))
    else if exists p {:trigger p in buffer} :: p in buffer && p.Id() == packet.id then Some(Duplicate(packet.id))
    else None
  }

  /** The samples of a packet can be told, and they are not too many. */
  predicate Decodable(opus: Opus, payload: Payload) {
    |payload| < 2 || (opus.nbSamples(payload).Some? && opus.nbSamples(payload).value <= 24000)
  }

  /** Which packets are admitted, and why the others are not: the first reason counts. */
  lemma AdmittedIff(opus: Opus, buffer: seq<QueuePacket>, nextId: u16, packet: Packet)
    ensures var r := Refusal(opus, buffer, nextId, packet);
      var full, bad := |buffer| >= 50, !Decodable(opus, packet.payload);
      var late := (packet.id - nextId) % 0x1_0000 > 50;
      var double := exists i {:trigger buffer[i]} :: 0 <= i < |buffer| && buffer[i].Id() == packet.id;
      && (r == None <==> !full && !bad && !late && !double)
      && (r == Some(QueueFull) <==> full)
      && (r.Some? && (r.value.GetPacketSample? || r.value.TooManySamples?) <==> !full && bad)
      && (r == Some(GetPacketSample) ==> opus.nbSamples(packet.payload) == None)
      && (r == Some(TooLate(nextId, packet.id)) <==> !full && !bad && late)
      && (r == Some(Duplicate(packet.id)) <==> !full && !bad && !late && double)
  {
    assert forall i {:trigger buffer[i]} :: 0 <= i < |buffer| ==> buffer[i] in buffer;
  }

  /** What a packet has as samples: the end of a stream has none. */
  lemma SamplesAre(opus: Opus, payload: Payload)
    requires Decodable(opus, payload)
    ensures SamplesOf(opus, payload).1 == if |payload| >= 2 then opus.nbSamples(payload).value else 0
  {
  }

  function SaturatingSub(a: nat, b: nat): nat {
    if a <= b then 0 else a - b
  }

  /** What is left to buffer once a packet was added: its samples and those of the gap before it are gone. */
  function BufferingAfter(buffering: nat, buffer: seq<QueuePacket>, p: QueuePacket, lastSamples: nat): nat {
    var lastId := if buffer == [] then p.Id() else Plus16(buffer[|buffer| - 1].Id(), 1);
    if lastId <= p.Id() then SaturatingSub(buffering, p.samples + (p.Id() - lastId) * lastSamples) else buffering
  }

  /** Counting down: the packet itself and, if its id is not below the one after the last, what is missing before it. */
  lemma BufferingIs(buffering: nat, buffer: seq<QueuePacket>, p: QueuePacket, lastSamples: nat)
    ensures var after := BufferingAfter(buffering, buffer, p, lastSamples);
      && (buffer == [] ==> after == Max(buffering - p.samples, 0))
      && (buffer != [] ==>
            var behind := (buffer[|buffer| - 1].Id() + 1) % 0x1_0000;
            && (p.Id() < behind ==> after == buffering)
            && (p.Id() == behind ==> after == Max(buffering - p.samples, 0))
            && (p.Id() > behind ==>
                  after == Max(buffering - p.samples - (p.Id() - behind) * lastSamples, 0)))
  {
  }

  function Max(a: int, b: int): int {
    if a >= b then a else b
  }

  /**
   * A plain comparison of ids decides whether the gap before a packet is counted. It means that the
   * packet goes to the end of the queue exactly if both ids are on the same side of the wrap.
   */
  lemma BufferingTestIsExactIff(last: u16, id: u16, nextId: u16)
    requires last != id
    requires WrappingSub16(last, nextId) <= MAX_BUFFER_PACKETS && WrappingSub16(id, nextId) <= MAX_BUFFER_PACKETS
    ensures (Plus16(last, 1) <= id <==> WrappingSub16(last, nextId) < WrappingSub16(id, nextId))
            <==> if last == 0xffff then id < nextId else (nextId <= last <==> nextId <= id)
  {
    assert Plus16(last, 1) == if last == 0xffff then 0 else last + 1;
    assert WrappingSub16(last, nextId) == if nextId <= last then last - nextId else last + 0x1_0000 - nextId;
    assert WrappingSub16(id, nextId) == if nextId <= id then id - nextId else id + 0x1_0000 - nextId;
  }

  function Negated(s: seq<int>): seq<int> {
    seq(|s|, i requires 0 <= i < |s| => -s[i])
  }

  predicate AllBytes(s: seq<int>) {
    forall x {:trigger x in s} :: x in s ==> 0 <= x < 256
  }

  /** The largest value. */
  function MaxOf(s: seq<int>): int
    requires s != []
  {
    -MinOf(Negated(s))
  }

  lemma MaxIsMax(s: seq<int>)
    requires s != []
    ensures MaxOf(s) in s && forall x {:trigger x in s} :: x in s ==> x <= MaxOf(s)
  {
    var n := Negated(s);
    var i :| 0 <= i < |n| && n[i] == MinOf(n);
    assert s[i] == MaxOf(s);
    forall x {:trigger x in s} | x in s
      ensures x <= MaxOf(s)
    {
      var j :| 0 <= j < |s| && s[j] == x;
      assert n[j] == -x && n[j] in n;
    }
  }

  lemma NegatedLast(s: seq<int>, size: nat)
    ensures Last(Negated(s), size) == Negated(Last(s, size))
  {
  }

  lemma NegatedAppend(s: seq<int>, x: int)
    ensures Negated(s + [x]) == Negated(s) + [-x]
  {
  }

  class AudioQueue {
    const opus: Opus
    const sizeMin: SlidingWindowMinimum
    const sizeMax: SlidingWindowMinimum  // of the negated sizes
    var nextId: u16
    var whispering: bool
    var packetBuffer: seq<QueuePacket>
    var packetBufferSamples: nat
    var decodedBuffer: seq<real>
    var decodedPos: nat
    var lastPacketSamples: nat
    var packetLossNum: nat
    var bufferingSamples: nat
    var bufferedForSamples: nat
    /** The decoder calls so far: the state of the decoder. */
    var calls: seq<Call>
    /** What became of every position from `firstId` up to the next one. */
    ghost const firstId: u16
    ghost var history: seq<Treatment>

    ghost predicate Valid()
      reads this, sizeMin, sizeMax
    {
      Lawful(opus) && WindowsValid()
      && Queued(packetBuffer, nextId, 0) && |packetBuffer| <= MAX_BUFFER_PACKETS
      && packetBufferSamples == Total(packetBuffer)
      && nextId == Plus16(firstId, |history|) && History(history, firstId)
    }

    ghost predicate WindowsValid()
      reads sizeMin, sizeMax
    {
      sizeMin != sizeMax && sizeMin.Valid() && sizeMax.Valid()
      && sizeMin.size == LAST_BUFFER_SIZE_COUNT == sizeMax.size
      && sizeMin.pushed != [] && AllBytes(sizeMin.pushed) && sizeMax.pushed == Negated(sizeMin.pushed)
    }

    /** The sizes that still count, in usual frames. */
    ghost function Recent(): seq<int>
      reads sizeMin
    {
      Last(sizeMin.pushed, LAST_BUFFER_SIZE_COUNT)
    }

    constructor (opus: Opus, id: u16, whispering: bool, lastPacketSamples: nat)
      requires Lawful(opus)
      ensures Valid() && fresh(sizeMin) && fresh(sizeMax)
      ensures this.opus == opus && nextId == id == firstId && this.whispering == whispering
      ensures packetBuffer == [] && history == [] && calls == [] && decodedBuffer == [] && decodedPos == 0
      ensures this.lastPacketSamples == lastPacketSamples && bufferingSamples == 0 && bufferedForSamples == 0
      ensures sizeMin.pushed == [0] && packetLossNum == 0
    {
      this.opus, nextId, firstId, this.whispering := opus, id, id, whispering;
      packetBuffer, packetBufferSamples, decodedBuffer, decodedPos := [], 0, [], 0;
      this.lastPacketSamples, packetLossNum, bufferingSamples, bufferedForSamples := lastPacketSamples, 0, 0, 0;
      calls, history := [], [];
      sizeMin := new SlidingWindowMinimum(LAST_BUFFER_SIZE_COUNT);
      sizeMax := new SlidingWindowMinimum(LAST_BUFFER_SIZE_COUNT);
      new;
      sizeMin.Push(0);
      sizeMax.Push(0);
      assert Negated([0]) == [0];
    }

    /** A queue for the first packet of a speaker. It is refused only for its samples. */
    static method New(opus: Opus, packet: Packet) returns (r: Result)
      requires Lawful(opus)
      ensures match opus.nbSamples(packet.payload)
              case None => r == Err(GetPacketSample)
              case Some(n) =>
                if n > MAX_BUFFER_SIZE then r == Err(TooManySamples)
                else r.Ok? && fresh(r.queue) && r.queue.Valid()
                     && r.queue.packetBuffer == [QueuePacket(packet, if |packet.payload| <= 1 then 0 else n)]
                     && r.queue.nextId == packet.id && r.queue.lastPacketSamples == n * CHANNEL_NUM
                     && r.queue.whispering == packet.whisper && r.queue.calls == [] && r.queue.decodedBuffer == []
                     && r.queue.bufferingSamples == 0
    {
      var n := opus.nbSamples(packet.payload);
      if n.None? {
        return Err(GetPacketSample);
      }
      if n.value > MAX_BUFFER_SIZE {
        return Err(TooManySamples);
      }
      var queue := new AudioQueue(opus, packet.id, packet.whisper, n.value * CHANNEL_NUM);
      ZeroDistance(packet.id, packet.id);
      var refusal := queue.AddPacket(packet);
      match refusal {
        case None => r := Ok(queue);
        case Some(error) => r := Err(error);
      }
    }

    method AddBufferSize(size: nat)
      requires WindowsValid()
      modifies sizeMin, sizeMax
      ensures WindowsValid()
      ensures sizeMin.pushed == Noted(old(sizeMin.pushed), size)
    {
      hide AllBytes, Negated, SlidingWindowMinimum.Valid;
      if size / USUAL_FRAME_SIZE < 0x100 {
        NegatedAppend(sizeMin.pushed, size / USUAL_FRAME_SIZE);
        BytesAppend(sizeMin.pushed, size / USUAL_FRAME_SIZE);
        sizeMin.Push(size / USUAL_FRAME_SIZE);
        sizeMax.Push(-(size / USUAL_FRAME_SIZE));
      }
    }

    /** Exactly the largest minus the smallest of the last 255 sizes, and a byte. */
    function GetDeviation(): (r: u8)
      requires WindowsValid()
      reads sizeMin, sizeMax
      ensures r == MaxOf(Recent()) - MinOf(Recent())
    {
      DeviationFits(sizeMin.pushed, LAST_BUFFER_SIZE_COUNT);
      (-sizeMax.GetMin()) - sizeMin.GetMin()
    }

    /** Searches from the back for the first packet that is not before `id`. */
    static method FindPlace(buffer: seq<QueuePacket>, nextId: u16, id: u16) returns (i: nat)
      requires Queued(buffer, nextId, 0) && WrappingSub16(id, nextId) <= MAX_BUFFER_PACKETS
      ensures i == PlaceOf(buffer, nextId, id)
      ensures SplitsAt(buffer, nextId, id, i)
    {
      hide Queued, WrappingSub16;
      i := |buffer|;
      while i > 0 && WrappingSub16(buffer[i - 1].Id(), id) <= MAX_BUFFER_PACKETS
        invariant 0 <= i <= |buffer|
        invariant i < |buffer| ==> Distance(buffer[i], nextId) >= WrappingSub16(id, nextId)
      {
        Suffix(buffer, nextId, 0, i - 1);
        CyclicTest(buffer[i - 1].Id(), id, nextId);
        i := i - 1;
      }
      if i > 0 {
        Suffix(buffer, nextId, 0, i - 1);
        CyclicTest(buffer[i - 1].Id(), id, nextId);
      }
      SplitIsPlace(buffer, nextId, 0, id, i);
    }

    /** A packet within 50 ids of the next one, and not there yet, is put at its place. */
    method AddPacket(packet: Packet) returns (refused: Option<AddError>)
      requires Valid()
      modifies this`packetBuffer, this`packetBufferSamples, this`bufferingSamples
      ensures Valid()
      ensures refused == Refusal(opus, old(packetBuffer), nextId, packet)
      ensures refused.Some? ==> packetBuffer == old(packetBuffer) && bufferingSamples == old(bufferingSamples)
      ensures refused.None? ==>
                var p := QueuePacket(packet, SamplesOf(opus, packet.payload).1);
                && bufferingSamples == BufferingAfter(old(bufferingSamples), old(packetBuffer), p, lastPacketSamples)
                && packetBuffer == Insert(old(packetBuffer), PlaceOf(old(packetBuffer), nextId, packet.id), p)
    {
      hide Queued, Total, WrappingSub16, Plus16, History, Lawful, WindowsValid, Insert, PlaceOf, SplitsAt;
      if |packetBuffer| >= MAX_BUFFER_PACKETS {
        return Some(QueueFull);
      }
      var samples := 0;
      if |packet.payload| > 1 {
        var nb := opus.nbSamples(packet.payload);
        if nb.None? {
          return Some(GetPacketSample);
        }
        samples := nb.value;
        if samples > MAX_BUFFER_SIZE {
          return Some(TooManySamples);
        }
      }
      var p := QueuePacket(packet, samples);
      if WrappingSub16(packet.id, nextId) > MAX_BUFFER_PACKETS {
        return Some(TooLate(nextId, packet.id));
      }
      var i := FindPlace(packetBuffer, nextId, packet.id);
      DuplicateIsAtSplit(packetBuffer, nextId, packet.id, i);
      if i < |packetBuffer| && packetBuffer[i].Id() == packet.id {
        return Some(Duplicate(packet.id));
      }
      var lastId := if packetBuffer == [] then packet.id else Plus16(packetBuffer[|packetBuffer| - 1].Id(), 1);
      if lastId <= packet.id {
        bufferingSamples := SaturatingSub(bufferingSamples, samples);
        bufferingSamples := SaturatingSub(bufferingSamples, (packet.id - lastId) * lastPacketSamples);
      }
      InsertKeepsOrder(packetBuffer, nextId, 0, i, p);
      packetBufferSamples := packetBufferSamples + samples;
      packetBuffer := Insert(packetBuffer, i, p);
      return None;
    }

    /** One call of the decoder: for a packet, or to conceal a gap as long as the last packet. */
    method DecodePacket(packet: Option<QueuePacket>, fec: bool) returns (ok: bool)
      requires Valid()
      modifies this`calls, this`whispering, this`packetLossNum, this`decodedBuffer, this`decodedPos,
               this`lastPacketSamples, sizeMin, sizeMax
      ensures Valid()
      ensures var len := if packet.Some? then packet.value.samples else old(lastPacketSamples);
        var payload := if packet.Some? then Some(packet.value.packet.payload) else None;
        calls == old(calls) + [Call(payload, len, fec)]
      ensures ok == opus.decode(calls).samples.Some?
      ensures whispering == if packet.Some? then packet.value.packet.whisper else old(whispering)
      ensures packetLossNum == if ok && packet.Some? && !fec then 0 else old(packetLossNum) + 1
      ensures var d := opus.decode(calls);
        ok ==>
          && lastPacketSamples == d.samples.value
          && decodedPos == old(decodedPos) + lastPacketSamples * CHANNEL_NUM
          && |FramesOf(d)| == lastPacketSamples * CHANNEL_NUM
          && decodedBuffer == Resize(old(decodedBuffer), old(decodedPos)) + FramesOf(d)
          && sizeMin.pushed == Noted(old(sizeMin.pushed), Waiting(packetBuffer, nextId, lastPacketSamples))
      ensures !ok ==>
        && lastPacketSamples == old(lastPacketSamples) && decodedPos == old(decodedPos)
        && decodedBuffer == Resize(old(decodedBuffer), old(decodedPos)) + opus.decode(calls).out
        && sizeMin.pushed == old(sizeMin.pushed)
    {
      hide Queued, Total, WrappingSub16, Plus16, History, Lawful, Waiting, WindowsValid, Noted, Resize;
      var payload, len := None, lastPacketSamples;
      if packet.Some? {
        payload, len := Some(packet.value.packet.payload), packet.value.samples;
        whispering := packet.value.packet.whisper;
      }
      packetLossNum := packetLossNum + 1;
      calls := calls + [Call(payload, len, fec)];
      LawfulCall(opus, old(calls), Call(payload, len, fec));
      var d := opus.decode(calls);
      decodedBuffer := Resize(decodedBuffer, decodedPos) + d.out;
      if d.samples.None? {
        return false;
      }
      lastPacketSamples := d.samples.value;
      decodedBuffer := decodedBuffer[..decodedPos + lastPacketSamples * CHANNEL_NUM];
      decodedPos := decodedPos + lastPacketSamples * CHANNEL_NUM;
      if packet.Some? && !fec {
        packetLossNum := 0;
      }
      AddBufferSize(Waiting(packetBuffer, nextId, lastPacketSamples));
      return true;
    }

    /** The loop body up to the decoding: one packet is taken, used early or missed. */
    method DecodeNext() returns (step: Step)
      requires Valid()
      modifies this`packetBuffer, this`packetBufferSamples, this`nextId, this`history,
               this`calls, this`whispering, this`packetLossNum, this`decodedBuffer, this`decodedPos,
               this`lastPacketSamples, sizeMin, sizeMax
      ensures Valid()
      ensures history == old(history) + TreatmentOf(PlanFor(old(packetBuffer), old(nextId)), old(packetBuffer))
      ensures var plan, buffer := PlanFor(old(packetBuffer), old(nextId)), old(packetBuffer);
        if plan == Stop then
          && step == End && packetBuffer == buffer[1..] && calls == old(calls)
          && decodedBuffer == old(decodedBuffer) && decodedPos == old(decodedPos)
          && lastPacketSamples == old(lastPacketSamples) && sizeMin.pushed == old(sizeMin.pushed)
        else
          var d, call := opus.decode(calls), CallOf(plan, buffer, old(lastPacketSamples));
          && calls == old(calls) + [call] && LawfulDecoding(call.len, d)
          && step == (if d.samples.Some? then Continue else Error)
          && packetBuffer == (if plan != Idle && step == Error then buffer[1..] else RestOf(plan, buffer))
          && packetLossNum == (if step == Continue && plan == Play then 0 else old(packetLossNum) + 1)
          && whispering == (if plan == Play || plan == Recover then buffer[0].packet.whisper else old(whispering))
          && (step == Continue ==>
               && lastPacketSamples == d.samples.value
               && decodedPos == old(decodedPos) + lastPacketSamples * CHANNEL_NUM
               && |FramesOf(d)| == lastPacketSamples * CHANNEL_NUM
               && decodedBuffer == Resize(old(decodedBuffer), old(decodedPos)) + FramesOf(d)
               && sizeMin.pushed == Noted(old(sizeMin.pushed), WaitingBehind(buffer, old(nextId), lastPacketSamples)))
    {
      hide Queued, Total, WrappingSub16, Plus16, History, Lawful, WindowsValid, Noted, Resize, Waiting,
           LawfulDecoding, Fits, WaitingBehind;
      ghost var plan := PlanFor(packetBuffer, nextId);
      LawfulCall(opus, calls, CallOf(plan, packetBuffer, lastPacketSamples));
      var packet, fec, lost := None, false, false;
      if packetBuffer != [] {
        packet := Some(packetBuffer[0]);
        TakeFront(packetBuffer, nextId);
        packetBuffer := packetBuffer[1..];
        if packet.value.Ends() {
          return End;
        }
        packetBufferSamples := packetBufferSamples - packet.value.samples;
        history := history + TreatmentOf(plan, old(packetBuffer));
        OneMore(old(history), TreatmentOf(plan, old(packetBuffer))[0], firstId);
        lost := packet.value.Id() != nextId;
        nextId := Plus16(nextId, 1);
        fec := lost && packet.value.Id() == nextId;
      }
      ghost var rest, next := packetBuffer, nextId;
      var ok := DecodePacket(if lost && !fec then None else packet, fec);
      if !ok {
        return Error;
      }
      BehindIs(old(packetBuffer), old(nextId), rest, next, lastPacketSamples);
      if lost {
        packetBufferSamples := packetBufferSamples + packet.value.samples;
        packetBuffer := [packet.value] + packetBuffer;
      }
      return Continue;
    }

    /** Counts packets from the back. */
    static method CountKept(buffer: seq<QueuePacket>, limit: nat) returns (keep: nat)
      ensures KeepsUpTo(buffer, limit, keep) && keep <= |buffer|
    {
      hide TailSamples;
      keep := 0;
      var keepSamples := 0;
      EmptyTail(buffer);
      while keep < |buffer| && keepSamples + buffer[|buffer| - keep - 1].samples < limit
        invariant keep <= |buffer| && keepSamples == TailSamples(buffer, keep)
        invariant keep > 0 ==> keepSamples < limit
      {
        TailGrows(buffer, keep);
        keepSamples, keep := keepSamples + buffer[|buffer| - keep - 1].samples, keep + 1;
      }
      if keep < |buffer| {
        TailGrows(buffer, keep);
      }
    }

    /** Throws out all but the last packets, up to some samples. */
    method Truncate(min: u8)
      requires Valid()
      modifies this`packetBuffer, this`packetBufferSamples, this`nextId, this`history
      ensures Valid()
      ensures var buffer, keep := old(packetBuffer), |packetBuffer|;
        && keep <= |buffer| && KeepsUpTo(buffer, min + USUAL_FRAME_SIZE, keep)
        && packetBuffer == buffer[|buffer| - keep..]
        && if keep == 0 then history == old(history) && nextId == old(nextId)
           else history == old(history) +
                 Skips(buffer[..|buffer| - keep], old(nextId), Distance(packetBuffer[0], old(nextId)))
    {
      hide Total, WrappingSub16, Plus16, History, Lawful, WindowsValid, KeepsUpTo, Skips, Used;
      ghost var buffer := packetBuffer;
      var keep := CountKept(packetBuffer, min + USUAL_FRAME_SIZE);
      var len := |packetBuffer| - keep;
      packetBuffer := packetBuffer[len..];
      packetBufferSamples := Total(packetBuffer);
      if packetBuffer != [] {
        SkippingTo(buffer, nextId, len);
        ghost var skips := Skips(buffer[..len], nextId, Distance(packetBuffer[0], nextId));
        HistoryAppend(history, skips, firstId);
        Plus16Adds(firstId, |history|, |skips|);
        nextId, history := packetBuffer[0].Id(), history + skips;
      } else {
        NothingQueued(nextId);
      }
    }

    /** Removes a stereo sample from every hundred of the packet decoded last. */
    method SpeedUp()
      requires |decodedBuffer| >= lastPacketSamples * CHANNEL_NUM
      modifies this`decodedBuffer
      ensures var start := |old(decodedBuffer)| - lastPacketSamples * CHANNEL_NUM;
        decodedBuffer == old(decodedBuffer)[..start] + Thinned(old(decodedBuffer)[start..])
    {
      hide Removed, Thinned, Drain;
      var start := |decodedBuffer| - lastPacketSamples * CHANNEL_NUM;
      ghost var pre, frames := decodedBuffer[..start], decodedBuffer[start..];
      RemovedNone(pre, frames);
      RemovedAll(pre, frames, lastPacketSamples);
      var i := 0;
      while i < lastPacketSamples / SPEED_CHANGE_STEPS
        invariant i <= lastPacketSamples / SPEED_CHANGE_STEPS
        invariant decodedBuffer == Removed(pre, frames, i)
      {
        var at := start + i * (SPEED_CHANGE_STEPS - 1) * CHANNEL_NUM;
        RemoveOne(pre, frames, i);
        decodedBuffer := Drain(decodedBuffer, at);
        i := i + 1;
      }
    }

    /** Cuts the queue or thins out what was decoded last. What is lost is returned. */
    method Adapt() returns (ghost lost: seq<QueuePacket>)
      requires Valid() && |decodedBuffer| >= lastPacketSamples * CHANNEL_NUM
      modifies this`packetBuffer, this`packetBufferSamples, this`nextId, this`history, this`decodedBuffer
      ensures Valid() && Extends(history, old(history))
      ensures old(packetBuffer) == Used(history[|old(history)|..]) + lost + packetBuffer
      ensures lost == [] || packetBuffer == []
      ensures Adapted(Recent(), old(packetBuffer), packetBuffer)
      ensures var start := |old(decodedBuffer)| - lastPacketSamples * CHANNEL_NUM;
        decodedBuffer == if PaceOf(Recent()) == Faster then
          old(decodedBuffer)[..start] + Thinned(old(decodedBuffer)[start..]) else old(decodedBuffer)
    {
      hide Queued, Total, WrappingSub16, Plus16, History, Lawful, KeepsUpTo, Skips, Thinned,
           SlidingWindowMinimum.Valid, Used, AllBytes, Negated;
      ghost var buffer, before, next := packetBuffer, history, nextId;
      DeviationFits(sizeMin.pushed, LAST_BUFFER_SIZE_COUNT);
      UsedOfNone();
      assert history[|history|..] == [];
      lost := [];
      var min, dev := sizeMin.GetMin(), GetDeviation();
      if min > MAX_BUFFER_SIZE / USUAL_FRAME_SIZE {
        Truncate(min);
        if packetBuffer == [] {
          lost := buffer;
          assert history[|before|..] == [];
        } else {
          ghost var cut := |buffer| - |packetBuffer|;
          SkippedAreUsed(buffer, next, cut);
          assert history[|before|..] == Skips(buffer[..cut], next, Distance(buffer[cut], next));
        }
      } else if min > dev {
        SpeedUp();
      }
    }

    /** The loop body: decodes once and adapts to the fill level. What is lost is returned. */
    method Refill() returns (step: Step, ghost lost: seq<QueuePacket>)
      requires Valid()
      modifies this`packetBuffer, this`packetBufferSamples, this`nextId, this`history,
               this`calls, this`whispering, this`packetLossNum, this`decodedBuffer, this`decodedPos,
               this`lastPacketSamples, sizeMin, sizeMax
      ensures Valid()
      ensures Extends(history, old(history))
      ensures old(packetBuffer) == Used(history[|old(history)|..]) + lost + packetBuffer
      ensures step == End ==> |lost| == 1 && lost[0].Ends() && calls == old(calls)
      ensures step == End ==> decodedBuffer == old(decodedBuffer) && decodedPos == old(decodedPos)
      ensures step == Error ==> |lost| <= 1
      ensures step == Continue ==> lost == [] || packetBuffer == []
      ensures step == End <==> PlanFor(old(packetBuffer), old(nextId)) == Stop
      ensures step != End ==>
                var call := CallOf(PlanFor(old(packetBuffer), old(nextId)), old(packetBuffer), old(lastPacketSamples));
                && calls == old(calls) + [call]
                && LawfulDecoding(call.len, opus.decode(calls))
                && (step == Continue <==> opus.decode(calls).samples.Some?)
      ensures step == Continue ==>
                var frames := FramesOf(opus.decode(calls));
                && lastPacketSamples == opus.decode(calls).samples.value && |frames| == lastPacketSamples * CHANNEL_NUM
                && decodedPos == old(decodedPos) + |frames|
                && decodedBuffer == Resize(old(decodedBuffer), old(decodedPos))
                     + (if lastPacketSamples > 0 && PaceOf(Recent()) == Faster then Thinned(frames) else frames)
      ensures step == Continue ==>
                var rest := RestOf(PlanFor(old(packetBuffer), old(nextId)), old(packetBuffer));
                if lastPacketSamples > 0 then Adapted(Recent(), rest, packetBuffer) else packetBuffer == rest
      ensures step == Continue ==>
                sizeMin.pushed ==
                Noted(old(sizeMin.pushed), WaitingBehind(old(packetBuffer), old(nextId), lastPacketSamples))
    {
      hide Queued, Total, WrappingSub16, Plus16, History, Lawful, WindowsValid, Adapted, Skips, Resize, Thinned, Used,
           Noted, Waiting, FramesOf, LawfulDecoding, PaceOf, CallOf, TreatmentOf, AudioQueue.Valid;
      ghost var buffer, before, plan := packetBuffer, history, PlanFor(packetBuffer, nextId);
      step := DecodeNext();
      ghost var between, queued := history, packetBuffer;
      lost := if plan == Play || queued == buffer then [] else buffer[..1];
      UsedInStep(buffer, queued, lost, plan, before);
      if step != Continue || lastPacketSamples == 0 {
        return;
      }
      ghost var dropped := Adapt();
      StillConserved(buffer, lost, queued, packetBuffer, dropped, before, between, history);
      lost := lost + dropped;
    }

    lemma SizesExist()
      requires WindowsValid()
      ensures sizeMin.pushed != []
    {
    }

    /** Decodes until there are `len` samples, or nothing more comes. */
    method Fill(len: nat) returns (output: Output, ghost lost: seq<QueuePacket>, ghost pieces: seq<Piece>)
      requires Valid() && bufferingSamples == 0
      modifies this`packetBuffer, this`packetBufferSamples, this`nextId, this`history,
               this`calls, this`whispering, this`packetLossNum, this`decodedBuffer, this`decodedPos,
               this`lastPacketSamples, sizeMin, sizeMax
      ensures Valid() && Extends(history, old(history))
      ensures old(packetBuffer) == Used(history[|old(history)|..]) + lost + packetBuffer
      ensures lost == [] || packetBuffer == [] || (|lost| == 1 && !output.Data? && !output.OutOfRange?)
      ensures !output.Buffering?
      ensures DecodedBy(opus, calls, |old(calls)|, pieces) && NotedAlong(old(sizeMin.pushed), pieces)
      ensures |calls| == |old(calls)| + |pieces| + (if output.Failed? then 1 else 0)
      ensures !output.Failed? ==> decodedBuffer == Assembled(old(decodedBuffer), old(decodedPos), pieces)
      ensures output.Data? ==> |decodedBuffer| >= len == decodedPos && output.samples == decodedBuffer[..len]
      ensures output.Ended? ==> output.samples == decodedBuffer && |lost| >= 1 && lost[|lost| - 1].Ends()
      ensures output.OutOfRange? <==>
                |calls| > |old(calls)| && opus.decode(calls).samples == Some(0) && |decodedBuffer| < len
      ensures output.Failed? <==> |calls| > |old(calls)| && opus.decode(calls).samples.None?
      ensures |old(decodedBuffer)| >= len ==>
                && output == Data(old(decodedBuffer)[..len]) && calls == old(calls)
                && packetBuffer == old(packetBuffer) && history == old(history)
    {
      hide Queued, Total, WrappingSub16, Plus16, History, Lawful, WindowsValid, Adapted, Skips, Resize, Thinned, Used,
           Noted, Waiting, FramesOf, LawfulDecoding, PaceOf, CallOf, RestOf, PlanFor, TreatmentOf,
           NotedAlong, DecodedBy, OneNoted, WaitingBehind, Assembled, EndOf;
      ghost var buffer, before, start := packetBuffer, history, decodedBuffer;
      lost, pieces := [], [];
      SizesExist();
      NoPieces(opus, calls, sizeMin.pushed, decodedBuffer, decodedPos);
      NothingUsed(history, packetBuffer);
      while |decodedBuffer| < len
        invariant Valid() && Extends(history, before)
        invariant buffer == Used(history[|before|..]) + lost + packetBuffer
        invariant lost == [] || packetBuffer == []
        invariant |calls| == |old(calls)| + |pieces|
        invariant DecodedBy(opus, calls, |old(calls)|, pieces) && NotedAlong(old(sizeMin.pushed), pieces)
        invariant sizeMin.pushed == SizesBefore(old(sizeMin.pushed), pieces, |pieces|) != []
        invariant decodedBuffer == Assembled(start, old(decodedPos), pieces)
        invariant decodedPos == EndOf(old(decodedPos), pieces)
        invariant |calls| > |old(calls)| ==> opus.decode(calls).samples.Some? && opus.decode(calls).samples.value > 0
        invariant |start| >= len ==>
                    decodedBuffer == start && calls == old(calls) && packetBuffer == buffer && history == before
        decreases if |decodedBuffer| >= len then 0 else if decodedPos >= len then 1 else 1 + len - decodedPos
      {
        ghost var between, queued, next, made := history, packetBuffer, nextId, calls;
        var step;
        ghost var dropped;
        step, dropped := Refill();
        StillConserved(buffer, lost, queued, packetBuffer, dropped, before, between, history);
        lost := lost + dropped;
        match step {
          case End => return Ended(decodedBuffer), lost, pieces;
          case Error =>
            DecodedByMore(opus, made, calls, |old(calls)|, pieces);
            return Failed, lost, pieces;
          case Continue =>
            ghost var piece := Piece(FramesOf(opus.decode(calls)), sizeMin.pushed);
            NotedOnce(piece.sizes, SizesBefore(old(sizeMin.pushed), pieces, |pieces|),
                      WaitingBehind(queued, next, lastPacketSamples));
            OneMorePiece(opus, made, calls, |old(calls)|, pieces, piece, old(sizeMin.pushed));
            AssembledOneMore(start, old(decodedPos), pieces, piece);
            HeardIs(piece);
            pieces := pieces + [piece];
        }
        if lastPacketSamples == 0 {
          break;
        }
      }
      decodedPos := len;
      return if len <= |decodedBuffer| then Data(decodedBuffer[..len]) else OutOfRange, lost, pieces;
    }

    /**
     * The next `len` samples. Afterwards every packet of the queue is still in it, was used at its
     * own position, or is among the lost ones.
     */
    method GetNextData(len: nat) returns (output: Output, ghost lost: seq<QueuePacket>, ghost pieces: seq<Piece>)
      requires Valid()
      modifies this`packetBuffer, this`packetBufferSamples, this`nextId, this`history,
               this`calls, this`whispering, this`packetLossNum, this`decodedBuffer, this`decodedPos,
               this`lastPacketSamples, this`bufferingSamples, this`bufferedForSamples, sizeMin, sizeMax
      ensures Valid() && Extends(history, old(history))
      ensures old(packetBuffer) == Used(history[|old(history)|..]) + lost + packetBuffer
      ensures lost == [] || packetBuffer == [] || (|lost| == 1 && !output.Data? && !output.OutOfRange?)
      ensures output.Buffering? <==> old(bufferingSamples) > 0 && old(bufferedForSamples) < MAX_BUFFER_TIME
      ensures output.Buffering? ==>
                && bufferedForSamples == old(bufferedForSamples) + len && bufferingSamples == old(bufferingSamples)
                && calls == old(calls) && packetBuffer == old(packetBuffer) && decodedBuffer == old(decodedBuffer)
                && decodedPos == old(decodedPos) && history == old(history)
      ensures !output.Buffering? ==> bufferingSamples == 0
      ensures !output.Buffering? ==>
                bufferedForSamples == if old(bufferingSamples) > 0 then 0 else old(bufferedForSamples)
      ensures DecodedBy(opus, calls, |old(calls)|, pieces) && NotedAlong(old(sizeMin.pushed), pieces)
      ensures |calls| == |old(calls)| + |pieces| + (if output.Failed? then 1 else 0)
      ensures !output.Buffering? && !output.Failed? ==>
                decodedBuffer == Assembled(LeftOver(old(decodedBuffer), old(decodedPos)), 0, pieces)
      ensures output.Data? ==> |decodedBuffer| >= len == decodedPos && output.samples == decodedBuffer[..len]
      ensures output.Ended? ==> output.samples == decodedBuffer && |lost| >= 1 && lost[|lost| - 1].Ends()
      ensures output.OutOfRange? <==>
                |calls| > |old(calls)| && opus.decode(calls).samples == Some(0) && |decodedBuffer| < len
      ensures output.Failed? <==> |calls| > |old(calls)| && opus.decode(calls).samples.None?
      ensures !output.Buffering? && |old(decodedBuffer)| >= old(decodedPos) + len ==>
                && output == Data(old(decodedBuffer)[old(decodedPos)..][..len]) && calls == old(calls)
                && packetBuffer == old(packetBuffer) && history == old(history)
    {
      hide Queued, Total, WrappingSub16, Plus16, History, Lawful, WindowsValid, Adapted, Skips, Resize, Thinned, Used,
           Noted, Waiting, FramesOf, LawfulDecoding, PaceOf, CallOf, RestOf, PlanFor, TreatmentOf,
           SlidingWindowMinimum.Valid, NotedAlong, DecodedBy, WaitingBehind, Assembled, EndOf;
      ghost var buffer, before := packetBuffer, history;
      lost, pieces := [], [];
      NoPieces(opus, calls, sizeMin.pushed, decodedBuffer, decodedPos);
      NothingUsed(history, packetBuffer);
      if bufferingSamples > 0 {
        if bufferedForSamples >= MAX_BUFFER_TIME {
          bufferingSamples, bufferedForSamples := 0, 0;
        } else {
          bufferedForSamples := bufferedForSamples + len;
          return Buffering, [], [];
        }
      }
      if decodedPos < |decodedBuffer| {
        if decodedPos > 0 {
          decodedBuffer, decodedPos := decodedBuffer[decodedPos..], 0;
        }
      } else {
        decodedBuffer, decodedPos := [], 0;
      }
      output, lost, pieces := Fill(len);
    }
  }

  /** The samples that wait behind the position that is decoded. */
  ghost function WaitingBehind(buffer: seq<QueuePacket>, nextId: u16, lastSamples: nat): nat {
    if buffer == [] || !Queued(buffer[1..], Plus16(nextId, 1), 0) then 0
    else Waiting(buffer[1..], Plus16(nextId, 1), lastSamples)
  }

  lemma BehindIs(buffer: seq<QueuePacket>, nextId: u16, rest: seq<QueuePacket>, next: u16, lastSamples: nat)
    requires rest == if buffer == [] then [] else buffer[1..]
    requires next == if buffer == [] then nextId else Plus16(nextId, 1)
    requires Queued(rest, next, 0)
    ensures Waiting(rest, next, lastSamples) == WaitingBehind(buffer, nextId, lastSamples)
  {
  }

  /** The samples that wait in the queue, counting the packets missing in it. */
  function Waiting(buffer: seq<QueuePacket>, nextId: u16, lastSamples: nat): nat
    requires Queued(buffer, nextId, 0)
  {
    Total(buffer) + Gaps(buffer, nextId) * lastSamples
  }

  /** The number of packets missing between the next id and the last packet. */
  function Gaps(buffer: seq<QueuePacket>, nextId: u16): nat
    requires Queued(buffer, nextId, 0)
  {
    if buffer == [] then 0
    else
      LastIsFarEnough(buffer, nextId, 0);
      Distance(buffer[|buffer| - 1], nextId) + 1 - |buffer|
  }

  /** The distances from the next id up to the last packet at which no packet is queued. */
  ghost function Missing(buffer: seq<QueuePacket>, nextId: u16): set<int>
    requires buffer != []
  {
    set k: int | 0 <= k <= Distance(buffer[|buffer| - 1], nextId) && k !in Distances(buffer, nextId)
  }

  ghost function Distances(buffer: seq<QueuePacket>, nextId: u16): set<int> {
    set i | 0 <= i < |buffer| :: Distance(buffer[i], nextId) as int
  }

  lemma {:induction false} ManyDistances(buffer: seq<QueuePacket>, nextId: u16)
    requires forall i, j {:trigger buffer[i], buffer[j]} :: 0 <= i < j < |buffer| ==>
               Distance(buffer[i], nextId) < Distance(buffer[j], nextId)
    ensures |Distances(buffer, nextId)| == |buffer|
    decreases |buffer|
  {
    hide WrappingSub16;
    if buffer != [] {
      var k := |buffer| - 1;
      ManyDistances(buffer[..k], nextId);
      assert Distance(buffer[k], nextId) as int !in Distances(buffer[..k], nextId);
      assert Distances(buffer, nextId) == Distances(buffer[..k], nextId) + {Distance(buffer[k], nextId) as int};
    }
  }

  function UpTo(n: nat): set<int> {
    if n == 0 then {} else UpTo(n - 1) + {n - 1}
  }

  lemma {:induction false} ManyNumbers(n: nat)
    ensures |UpTo(n)| == n && forall k {:trigger k in UpTo(n)} :: k in UpTo(n) <==> 0 <= k < n
  {
    if n > 0 {
      ManyNumbers(n - 1);
    }
  }

  /** The gaps are the ids up to the last packet that are not queued. */
  lemma {:induction false} GapsAreMissing(buffer: seq<QueuePacket>, nextId: u16)
    requires Queued(buffer, nextId, 0) && buffer != []
    ensures Gaps(buffer, nextId) == |Missing(buffer, nextId)|
  {
    hide Queued, WrappingSub16;
    var last: int := Distance(buffer[|buffer| - 1], nextId);
    var all := UpTo(last + 1);
    QueuedIsStrictlyIncreasing(buffer, nextId, 0);
    ManyDistances(buffer, nextId);
    ManyNumbers(last + 1);
    forall d | d in Distances(buffer, nextId)
      ensures d in all
    {
      var i :| 0 <= i < |buffer| && d == Distance(buffer[i], nextId) as int;
      if i < |buffer| - 1 { assert Distance(buffer[i], nextId) < Distance(buffer[|buffer| - 1], nextId); }
    }
    assert Missing(buffer, nextId) == all - Distances(buffer, nextId);
  }

  function CallOf(plan: Plan, buffer: seq<QueuePacket>, lastSamples: nat): Call {
    if (plan == Play || plan == Recover) && buffer != [] then
      Call(Some(buffer[0].packet.payload), buffer[0].samples, plan == Recover)
    else
      Call(None, lastSamples, false)
  }

  /** The call in terms of what the queue holds: the next packet, or the one behind it, or nothing. */
  lemma CallIsRight(buffer: seq<QueuePacket>, nextId: u16, lastSamples: nat)
    requires Queued(buffer, nextId, 0) && (buffer == [] || !buffer[0].Ends())
    ensures var call := CallOf(PlanFor(buffer, nextId), buffer, lastSamples);
      && (forall p {:trigger p in buffer} :: p in buffer && p.Id() == nextId ==>
            call == Call(Some(p.packet.payload), p.samples, false))
      && (!Holds(buffer, nextId) ==> forall p {:trigger p in buffer} :: p in buffer && p.Id() == Plus16(nextId, 1) ==>
            call == Call(Some(p.packet.payload), p.samples, true))
      && (!Holds(buffer, nextId) && !Holds(buffer, Plus16(nextId, 1)) ==> call == Call(None, lastSamples, false))
  {
    hide Plus16, WrappingSub16, Queued;
    if buffer != [] {
      PlanIsRight(buffer, nextId);
      QueuedIsStrictlyIncreasing(buffer, nextId, 0);
      forall p {:trigger p in buffer} | p in buffer && p.Id() == buffer[0].Id()
        ensures p == buffer[0]
      {
        var i :| 0 <= i < |buffer| && buffer[i] == p;
        assert Distance(buffer[i], nextId) == Distance(buffer[0], nextId);
      }
    }
  }

  function TreatmentOf(plan: Plan, buffer: seq<QueuePacket>): seq<Treatment> {
    if buffer == [] then []
    else match plan
      case Play => [Decoded(buffer[0])]
      case Recover => [Recovered(buffer[0])]
      case Conceal => [Concealed]
      case _ => []
  }

  lemma {:induction false} TakeFront(buffer: seq<QueuePacket>, nextId: u16)
    requires Queued(buffer, nextId, 0) && buffer != []
    ensures Total(buffer) == buffer[0].samples + Total(buffer[1..])
    ensures Queued(buffer[1..], nextId, 1) && Queued(buffer[1..], Plus16(nextId, 1), 0)
    ensures Queued(buffer[1..], nextId, 0)
    ensures buffer[0].Ends() ==> buffer[0].samples == 0
    ensures buffer[0].Id() != nextId ==> Queued(buffer, Plus16(nextId, 1), 0)
    ensures [buffer[0]] + buffer[1..] == buffer
  {
    hide WrappingSub16, Plus16;
    Advance(buffer[1..], nextId, 1, 1);
    ZeroDistance(buffer[0].Id(), nextId);
    if buffer[0].Id() != nextId {
      assert Queued(buffer, nextId, 1);
      Advance(buffer, nextId, 1, 1);
    }
    Loosen(buffer[1..], nextId, 1, 0);
  }

  lemma OneMore(history: seq<Treatment>, t: Treatment, firstId: u16)
    requires History(history, firstId) && Fits(t, Plus16(firstId, |history|))
    ensures History(history + [t], firstId)
    ensures Plus16(firstId, |history| + 1) == Plus16(Plus16(firstId, |history|), 1)
  {
    Plus16Adds(firstId, |history|, 1);
    HistoryOf(t, Plus16(firstId, |history|));
    HistoryAppend(history, [t], firstId);
  }

  lemma EmptyTail(buffer: seq<QueuePacket>)
    ensures TailSamples(buffer, 0) == 0
  {
  }

  lemma NothingQueued(nextId: u16)
    ensures Queued([], nextId, 0)
  {
  }

  lemma ThinnedLength(frames: seq<real>)
    ensures |Thinned(frames)| == |frames| - |frames| / BLOCK * CHANNEL_NUM
  {
  }

  /**
   * The position to decode to does not move back with the removed samples. So when another packet
   * follows, silence of the same length takes their place: only the last packet gets shorter.
   */
  lemma ThinningIsPaddedWithSilence(pre: seq<real>, frames: seq<real>)
    ensures Resize(pre + Thinned(frames), |pre| + |frames|)
            == pre + Thinned(frames) + seq(|frames| / BLOCK * CHANNEL_NUM, _ => 0.0)
  {
    ThinnedLength(frames);
  }

  /** The buffer without one stereo sample. */
  function Drain(buffer: seq<real>, at: nat): seq<real>
    requires at + CHANNEL_NUM <= |buffer|
  {
    buffer[..at] + buffer[at + CHANNEL_NUM..]
  }

  /** The buffer after the first i samples were removed. */
  function Removed(pre: seq<real>, frames: seq<real>, i: nat): seq<real>
    requires i * BLOCK <= |frames|
  {
    pre + Kept(frames, i) + frames[i * BLOCK..]
  }

  lemma RemovedNone(pre: seq<real>, frames: seq<real>)
    ensures Removed(pre, frames, 0) == pre + frames
  {
  }

  lemma RemoveOne(pre: seq<real>, frames: seq<real>, i: nat)
    requires (i + 1) * BLOCK <= |frames|
    ensures var buffer, at := Removed(pre, frames, i), |pre| + i * (BLOCK - CHANNEL_NUM);
      && at + CHANNEL_NUM <= |buffer|
      && Drain(buffer, at) == Removed(pre, frames, i + 1)
  {
    var head, tail := pre + Kept(frames, i), frames[i * BLOCK..];
    var buffer, at := head + tail, |head|;
    assert buffer[..at] == head && buffer[at + CHANNEL_NUM..] == tail[CHANNEL_NUM..];
    var block := frames[i * BLOCK + CHANNEL_NUM..(i + 1) * BLOCK];
    assert tail[CHANNEL_NUM..] == block + frames[(i + 1) * BLOCK..];
    assert Kept(frames, i + 1) == Kept(frames, i) + block;
    assert head + (block + frames[(i + 1) * BLOCK..]) == pre + (Kept(frames, i) + block) + frames[(i + 1) * BLOCK..];
  }

  lemma RemovedAll(pre: seq<real>, frames: seq<real>, samples: nat)
    requires |frames| == samples * CHANNEL_NUM
    ensures samples / SPEED_CHANGE_STEPS * BLOCK <= |frames|
    ensures Removed(pre, frames, samples / SPEED_CHANGE_STEPS) == pre + Thinned(frames)
  {
    assert |frames| / BLOCK == samples / SPEED_CHANGE_STEPS;
  }

  ghost predicate Extends(history: seq<Treatment>, old_: seq<Treatment>) {
    |old_| <= |history| && history[..|old_|] == old_
  }

  // How fast to play.

  datatype Pace = Steady | Faster | Cut

  /**
   * There were never less than 25 frames: cut; at least more than the fill level varies: faster.
   */
  function PaceOf(recent: seq<int>): Pace {
    if recent == [] then Steady
    else if MinOf(recent) > MAX_BUFFER_SIZE / USUAL_FRAME_SIZE then Cut
    else if MinOf(recent) > MaxOf(recent) - MinOf(recent) then Faster
    else Steady
  }

  /** What this means for every single size: always more than 25 frames, or never twice as many as at another time. */
  lemma PaceIff(recent: seq<int>)
    requires recent != []
    ensures PaceOf(recent) == Cut <==>
            forall x {:trigger x in recent} :: x in recent ==> x > MAX_BUFFER_SIZE / USUAL_FRAME_SIZE
    ensures PaceOf(recent) == Faster <==>
            PaceOf(recent) != Cut && forall x, y {:trigger x in recent, y in recent} ::
              x in recent && y in recent ==> y < 2 * x
  {
    hide MaxOf, MinOf;
    MinIsMin(recent);
    MaxIsMax(recent);
  }

  lemma {:induction false} MinIsMin(s: seq<int>)
    requires s != []
    ensures MinOf(s) in s && forall x {:trigger x in s} :: x in s ==> MinOf(s) <= x
  {
  }

  predicate Adapted(recent: seq<int>, before: seq<QueuePacket>, after: seq<QueuePacket>) {
    if PaceOf(recent) == Cut then
      KeepsUpTo(before, MinOf(recent) + USUAL_FRAME_SIZE, |after|) && after == before[|before| - |after|..]
    else
      after == before
  }

  /** What is left in the queue once its front was decoded. */
  function RestOf(plan: Plan, buffer: seq<QueuePacket>): seq<QueuePacket> {
    if plan == Play && buffer != [] then buffer[1..] else buffer
  }

  lemma SkippedAreUsed(buffer: seq<QueuePacket>, nextId: u16, k: nat)
    requires Queued(buffer, nextId, 0) && k < |buffer|
    ensures Used(Skips(buffer[..k], nextId, Distance(buffer[k], nextId))) == buffer[..k]
  {
    SkippingTo(buffer, nextId, k);
  }

  /** A packet is used, lost or still there. */
  lemma UsedInStep(
      buffer: seq<QueuePacket>, after: seq<QueuePacket>, lost: seq<QueuePacket>, plan: Plan, before: seq<Treatment>)
    requires plan == Idle ==> buffer == [] == after
    requires plan != Idle ==> buffer != [] && (after == buffer || after == buffer[1..])
    requires plan == Play ==> after == buffer[1..]
    requires lost == if plan == Play || after == buffer then [] else buffer[..1]
    ensures var history := before + TreatmentOf(plan, buffer);
      Extends(history, before) && buffer == Used(history[|before|..]) + lost + after
  {
    assert (before + TreatmentOf(plan, buffer))[|before|..] == TreatmentOf(plan, buffer);
    UsedOfNone();
    if TreatmentOf(plan, buffer) != [] {
      UsedOf(TreatmentOf(plan, buffer)[0]);
    }
  }

  lemma UsedSplit(a: seq<Treatment>, b: seq<Treatment>, c: seq<Treatment>)
    requires Extends(b, a) && Extends(c, b)
    ensures Extends(c, a)
    ensures Used(c[|a|..]) == Used(b[|a|..]) + Used(c[|b|..])
  {
    assert c[|a|..] == b[|a|..] + c[|b|..];
    UsedAppend(b[|a|..], c[|b|..]);
  }

  lemma NothingUsed(history: seq<Treatment>, buffer: seq<QueuePacket>)
    ensures Extends(history, history) && buffer == Used(history[|history|..]) + [] + buffer
  {
    assert history[|history|..] == [];
  }

  lemma StillConserved(
      buffer: seq<QueuePacket>, lost: seq<QueuePacket>, queued: seq<QueuePacket>, left: seq<QueuePacket>,
      dropped: seq<QueuePacket>, a: seq<Treatment>, b: seq<Treatment>, c: seq<Treatment>)
    requires Extends(b, a) && Extends(c, b)
    requires lost == [] || queued == []
    requires buffer == Used(b[|a|..]) + lost + queued
    requires queued == Used(c[|b|..]) + dropped + left
    ensures Extends(c, a) && buffer == Used(c[|a|..]) + (lost + dropped) + left
    ensures lost != [] ==> dropped == [] && left == []
  {
    UsedSplit(a, b, c);
  }

  lemma LawfulCall(opus: Opus, calls: seq<Call>, call: Call)
    requires Lawful(opus)
    ensures LawfulDecoding(call.len, opus.decode(calls + [call]))
  {
  }

  datatype Step = Continue | End | Error

  datatype Result = Ok(queue: AudioQueue) | Err(error: AddError)

  /** The test for "not before" with two ids near the next one. */
  lemma CyclicTest(a: u16, b: u16, nextId: u16)
    requires WrappingSub16(a, nextId) <= MAX_BUFFER_PACKETS && WrappingSub16(b, nextId) <= MAX_BUFFER_PACKETS
    ensures WrappingSub16(a, b) <= MAX_BUFFER_PACKETS <==> WrappingSub16(a, nextId) >= WrappingSub16(b, nextId)
  {
  }

  /** The sizes, with one more if it fits into a byte. */
  function Noted(sizes: seq<int>, size: nat): seq<int> {
    if size / USUAL_FRAME_SIZE < 0x100 then sizes + [size / USUAL_FRAME_SIZE] else sizes
  }

  lemma NotedIs(sizes: seq<int>, size: nat)
    ensures size < 960 * 256 ==> |Noted(sizes, size)| == |sizes| + 1 && Noted(sizes, size)[..|sizes|] == sizes
    ensures size < 960 * 256 ==> 0 <= size - 960 * Noted(sizes, size)[|sizes|] < 960
    ensures size >= 960 * 256 ==> Noted(sizes, size) == sizes
  {
  }

  lemma BytesAppend(s: seq<int>, x: u8)
    requires AllBytes(s)
    ensures AllBytes(s + [x])
  {
  }

  lemma DeviationFits(sizes: seq<int>, size: u8)
    requires sizes != [] && AllBytes(sizes) && size > 0
    ensures var recent := Last(sizes, size);
      recent != [] && 0 <= MaxOf(recent) - MinOf(recent) < 256
      && MaxOf(recent) == -MinOf(Last(Negated(sizes), size))
      && 0 <= MinOf(recent) < 256
  {
    var recent := Last(sizes, size);
    NegatedLast(sizes, size);
    MaxIsMax(recent);
    assert forall x {:trigger x in recent} :: x in recent ==> x in sizes;
  }
}
