/**
 * The receive queue when packets may wait twice. A packet that arrives again while it waits is
 * doubled: one copy stays behind, and it is the first packet with its id until the loop, one round
 * of ids later, takes it for another one.
 */
module DoubledPackets {
  import opened Prelude
  import opened PacketIds
  import opened Fragmentation
  import opened CommandCodec

  // ---------------------------------------------------------------- the first packet with an id

  function First(queue: seq<Wire>, id: u16): Option<Wire> {
    match Extract(queue, id)
    case Some((w, _)) => Some(w)
    case None => None
  }

  lemma {:induction false} FirstOfRest(queue: seq<Wire>, a: u16, b: u16)
    requires a != b && Extract(queue, a).Some?
    ensures First(Extract(queue, a).value.1, b) == First(queue, b)
  {
    if queue[0].id != a {
      FirstOfRest(queue[1..], a, b);
      var q := Extract(queue[1..], a).value.1;
      assert ([queue[0]] + q)[1..] == q;
    }
  }

  lemma {:induction false} FirstOfMore(queue: seq<Wire>, w: Wire, id: u16)
    requires First(queue, id).Some?
    ensures First(queue + [w], id) == First(queue, id)
  {
    assert (queue + [w])[1..] == queue[1..] + [w];
    if queue[0].id != id {
      FirstOfMore(queue[1..], w, id);
    }
  }

  lemma FirstIs(queue: seq<Wire>, c: Wire)
    requires c in multiset(queue)
    requires forall w {:trigger multiset(queue)[w]} :: w in multiset(queue) && w.id == c.id ==> w == c
    ensures First(queue, c.id) == Some(c)
  {
    ExtractCorrect(queue, c.id);
    if Extract(queue, c.id).Some? {
      assert Extract(queue, c.id).value.0 in multiset(queue);
    }
  }

  // ---------------------------------------------------------------- the loop

  lemma TakenStep(queue: seq<Wire>, w: Wire)
    ensures match Extract(queue, (w.id + 1) % ID_RANGE)
      case None => Taken(queue, w) == ([w], queue)
      case Some((w', q)) => |q| < |queue| && Taken(queue, w) == ([w] + Taken(q, w').0, Taken(q, w').1)
  {
    hide Extract;
    match Extract(queue, (w.id + 1) % ID_RANGE)
    case None =>
    case Some((w', q)) => assert Taken(queue, w).0 == [w] + Taken(q, w').0;
  }

  lemma Tail(w: Wire, ws: seq<Wire>)
    ensures ([w] + ws)[1..] == ws && multiset([w] + ws) == multiset{w} + multiset(ws)
  {
  }

  /** What the loop takes beyond w leaves the queue. */
  lemma {:induction false} TakenSplits(queue: seq<Wire>, w: Wire)
    ensures var (ws, rest) := Taken(queue, w);
      |ws| >= 1 && ws[0] == w && multiset(queue) == multiset(rest) + multiset(ws[1..])
    decreases |queue|
  {
    hide Taken, Extract;
    TakenStep(queue, w);
    ExtractCorrect(queue, (w.id + 1) % ID_RANGE);
    match Extract(queue, (w.id + 1) % ID_RANGE)
    case None => Tail(w, []);
    case Some((w', q)) =>
      TakenSplits(q, w');
      var ws := Taken(q, w').0;
      Tail(w, ws);
      Tail(w', ws[1..]);
      assert ws == [w'] + ws[1..];
  }

  /** A packet whose id the loop does not come by stays the first one with its id. */
  lemma {:induction false} FirstAfterTaken(queue: seq<Wire>, w: Wire, n: nat, p: nat)
    requires w.id == n % ID_RANGE && p < n && n + |Taken(queue, w).0| < p + ID_RANGE
    ensures First(Taken(queue, w).1, p % ID_RANGE) == First(queue, p % ID_RANGE)
    decreases |queue|
  {
    hide First;
    IdAfter(n);
    NotOneRound(n + 1, p);
    ExtractCorrect(queue, (n + 1) % ID_RANGE);
    match Extract(queue, (n + 1) % ID_RANGE)
    case None =>
    case Some((w', q)) =>
      FirstOfRest(queue, (n + 1) % ID_RANGE, p % ID_RANGE);
      FirstAfterTaken(q, w', n + 1, p);
  }

  lemma NotOneRound(n: nat, p: nat)
    requires p < n < p + ID_RANGE
    ensures n % ID_RANGE != p % ID_RANGE
  {
    if n % ID_RANGE == p % ID_RANGE { Congruent(n, p); }
  }

  /** When the loop has gone through position p + 65535, the first packet with the id of p is next. */
  lemma {:induction false} TakenMeetsCopy(queue: seq<Wire>, w: Wire, n: nat, p: nat, c: Wire)
    requires w.id == n % ID_RANGE && p < n < p + ID_RANGE && First(queue, p % ID_RANGE) == Some(c)
    requires n + |Taken(queue, w).0| >= p + ID_RANGE
    ensures var j := p + ID_RANGE - n;
      j < |Taken(queue, w).0| && Taken(queue, w).0[j] == c
    decreases |queue|
  {
    hide Taken, Extract;
    IdAfter(n);
    AfterOneRound(p);
    TakenStep(queue, w);
    ExtractCorrect(queue, (n + 1) % ID_RANGE);
    match Extract(queue, (n + 1) % ID_RANGE)
    case None =>
    case Some((w', q)) =>
      if n + 1 == p + ID_RANGE {
        TakenSplits(q, w');
      } else {
        NotOneRound(n + 1, p);
        FirstOfRest(queue, (n + 1) % ID_RANGE, p % ID_RANGE);
        TakenMeetsCopy(q, w', n + 1, p, c);
      }
  }

  lemma AfterOneRound(p: nat)
    ensures (p + ID_RANGE) % ID_RANGE == p % ID_RANGE
  {
  }

  // ---------------------------------------------------------------- doubled packets

  /** n is not a whole round of ids past any of the positions. */
  predicate WithinRound(n: int, ps: set<nat>) {
    forall p {:trigger p in ps} :: p in ps ==> n < p + ID_RANGE
  }

  /** Only doubled packets wait twice or are behind. */
  ghost predicate Strays(queue: multiset<Wire>, n: nat, ps: set<nat>) {
    forall w {:trigger queue[w]} :: w in queue && (w.Position() < n || queue[w] > 1) ==> w.Position() in ps
  }

  /** Every doubled packet waits twice, or is behind and still there. */
  ghost predicate Copies(s: Stream, queue: seq<Wire>, n: nat, ps: set<nat>) {
    forall p {:trigger p in ps} :: p in ps ==>
      s.start <= p < s.End()
      && if n <= p then multiset(queue)[s.At(p)] > 1 else First(queue, p % ID_RANGE) == Some(s.At(p))
  }

  /** Before the first round is over, the receiver fits the stream up to n. */
  lemma QueueUpTo(s: Stream, n: nat, n': nat, queue: multiset<Wire>, ps: set<nat>)
    requires QueueFrom(s, n, n, queue) && Strays(queue, n, ps) && !Queued(queue, n) && WithinRound(n', ps)
    ensures QueueFrom(s, n', n, queue)
  {
    forall w | w in queue
      ensures Waits(s, n', n, w) && (queue[w] > 1 ==> n' < w.Position() + ID_RANGE)
    {
      assert Waits(s, n, n, w);
      assert w.Position() < n ==> w.Position() in ps;
      assert queue[w] > 1 ==> w.Position() in ps;
    }
  }

  /** What is in the way of the loop. */
  lemma TakenBetween(s: Stream, horizon: nat, n: nat, queue: seq<Wire>, w: Wire, c: Wire)
    requires s.End() <= STREAM_LIMIT && (s.End() <= horizon || n + |Taken(queue, w).0| <= horizon)
    requires s.Holds(w, n) && QueueFrom(s, horizon, n, multiset(queue)) && s.Genuine(c)
    ensures var (ws, rest) := Taken(queue, w);
      multiset(queue)[c] == multiset(rest)[c] + (if n < c.Position() < n + |ws| then 1 else 0)
  {
    hide Stream.Genuine, QueueFrom;
    TakenSplits(queue, w);
    TakenIsConsecutive(s, horizon, n, queue, w);
    OncePerPosition(s, Taken(queue, w).0[1..], n + 1, c);
  }

  lemma {:induction false} OncePerPosition(s: Stream, ws: seq<Wire>, n: nat, c: Wire)
    requires s.Genuine(c) && forall i {:trigger ws[i]} :: 0 <= i < |ws| ==> s.Holds(ws[i], n + i)
    ensures multiset(ws)[c] == if n <= c.Position() < n + |ws| then 1 else 0
  {
    if ws != [] {
      var rest := ws[1..];
      assert ws == [ws[0]] + rest;
      assert forall i {:trigger rest[i]} :: 0 <= i < |rest| ==> rest[i] == ws[i + 1];
      OncePerPosition(s, rest, n + 1, c);
      assert s.Holds(ws[0], n);
      if c.Position() == n {
        SamePosition(s, c, ws[0]);
      }
    }
  }

  // ---------------------------------------------------------------- one step

  ghost predicate Tracked(s: Stream, n: nat, queue: seq<Wire>, ps: set<nat>) {
    s.End() <= STREAM_LIMIT && s.start <= n <= s.End()
    && QueueFrom(s, n, n, multiset(queue)) && !Queued(multiset(queue), n)
    && Strays(multiset(queue), n, ps) && Copies(s, queue, n, ps)
  }

  /** The loop goes at most 200 positions on. */
  lemma LoopIsShort(s: Stream, horizon: nat, n: nat, queue: seq<Wire>, w: Wire)
    requires s.End() <= STREAM_LIMIT && (s.End() <= horizon || n + |Taken(queue, w).0| <= horizon)
    requires s.Holds(w, n) && QueueFrom(s, horizon, n, multiset(queue))
    ensures |Taken(queue, w).0| <= MAX_QUEUE_LEN
  {
    var (ws, rest) := Taken(queue, w);
    TakenSplits(queue, w);
    TakenIsConsecutive(s, horizon, n, queue, w);
    if |ws| > 1 {
      var last := ws[|ws| - 1];
      assert ws[1..][|ws| - 2] == last;
      assert last in multiset(queue);
      assert Waits(s, horizon, n, last);
    }
  }

  lemma {:induction false} LoopKeepsStrays(s: Stream, n: nat, queue: seq<Wire>, w: Wire, ps: set<nat>)
    requires Tracked(s, n, queue, ps) && s.Holds(w, n) && WithinRound(n + |Taken(queue, w).0|, ps)
    ensures Strays(multiset(Taken(queue, w).1), n + |Taken(queue, w).0|, ps)
  {
    hide Taken, Stream.Genuine, Copies;
    var h, rest := n + |Taken(queue, w).0|, Taken(queue, w).1;
    QueueUpTo(s, n, h, multiset(queue), ps);
    TakenSplits(queue, w);
    forall c: Wire | c in multiset(rest) && (c.Position() < h || multiset(rest)[c] > 1)
      ensures c.Position() in ps
    {
      assert c in multiset(queue) && Waits(s, h, n, c);
      TakenBetween(s, h, n, queue, w, c);
      assert c.Position() != n;
    }
  }

  lemma {:induction false} LoopKeepsCopies(s: Stream, n: nat, queue: seq<Wire>, w: Wire, ps: set<nat>)
    requires Tracked(s, n, queue, ps) && s.Holds(w, n) && WithinRound(n + |Taken(queue, w).0|, ps)
    ensures Copies(s, Taken(queue, w).1, n + |Taken(queue, w).0|, ps)
  {
    hide Taken, Strays;
    var h, rest := n + |Taken(queue, w).0|, Taken(queue, w).1;
    forall p | p in ps
      ensures s.start <= p < s.End()
      ensures if h <= p then multiset(rest)[s.At(p)] > 1 else First(rest, p % ID_RANGE) == Some(s.At(p))
    {
      LoopKeepsCopy(s, n, queue, w, ps, p);
    }
  }

  lemma {:induction false} LoopKeepsCopy(s: Stream, n: nat, queue: seq<Wire>, w: Wire, ps: set<nat>, p: nat)
    requires Tracked(s, n, queue, ps) && s.Holds(w, n) && WithinRound(n + |Taken(queue, w).0|, ps) && p in ps
    ensures s.start <= p < s.End()
    ensures var h, rest := n + |Taken(queue, w).0|, Taken(queue, w).1;
      if h <= p then multiset(rest)[s.At(p)] > 1 else First(rest, p % ID_RANGE) == Some(s.At(p))
  {
    hide Taken, First;
    var h, rest, c := n + |Taken(queue, w).0|, Taken(queue, w).1, s.At(p);
    QueueUpTo(s, n, h, multiset(queue), ps);
    TakenSplits(queue, w);
    AtIsGenuine(s, p);
    TakenBetween(s, h, n, queue, w, c);
    OfUnique(n, w.generation, w.id);
    if p < n {
      FirstAfterTaken(queue, w, n, p);
    } else {
      assert c in multiset(queue);
      if p < h {
        TakenLeavesQueue(s, h, n, queue, w);
        LoopIsShort(s, h, n, queue, w);
        OnlyCopy(s, h, rest, p);
      }
    }
  }

  /** Shortly after position p, nothing else in the queue has its id. */
  lemma OnlyCopy(s: Stream, h: nat, queue: seq<Wire>, p: nat)
    requires s.End() <= STREAM_LIMIT && s.start <= p < s.End() && p < h <= p + MAX_QUEUE_LEN
    requires QueueFrom(s, h, h, multiset(queue)) && s.At(p) in multiset(queue)
    ensures First(queue, p % ID_RANGE) == Some(s.At(p))
  {
    hide First;
    var c := s.At(p);
    AtIsGenuine(s, p);
    forall w | w in multiset(queue) && w.id == c.id
      ensures w == c
    {
      assert Waits(s, h, h, w);
      OfUnique(w.Position(), w.generation, w.id);
      if w.Position() < p { Congruent(p, w.Position()); } else if p < w.Position() { Congruent(w.Position(), p); }
      SamePosition(s, w, c);
    }
    FirstIs(queue, c);
  }

  /** An early packet is put behind the others; if it was there already, it is doubled. */
  lemma {:induction false} EarlyKeepsTrack(s: Stream, n: nat, queue: seq<Wire>, ps: set<nat>, p: nat)
    requires Tracked(s, n, queue, ps) && n < p < n + MAX_QUEUE_LEN && p < s.End()
    ensures Tracked(s, n, queue + [s.At(p)], ps + (if s.At(p) in queue then {p} else {}))
  {
    hide First;
    var c, ps' := s.At(p), ps + (if s.At(p) in queue then {p} else {});
    var queue' := queue + [c];
    AtIsGenuine(s, p);
    assert multiset(queue') == multiset(queue) + multiset{c};
    EarlyQueue(s, n, n, multiset(queue), p, c);
    QueuedOneMore(multiset(queue'), multiset(queue), c, n);
    forall w: Wire | w in multiset(queue') && (w.Position() < n || multiset(queue')[w] > 1)
      ensures w.Position() in ps'
    {
      assert w != c ==> multiset(queue')[w] == multiset(queue)[w];
      assert w == c ==> c in multiset(queue);
    }
    forall q | q in ps'
      ensures s.start <= q < s.End()
      ensures if n <= q then multiset(queue')[s.At(q)] > 1 else First(queue', q % ID_RANGE) == Some(s.At(q))
    {
      if q < n { FirstOfMore(queue, c, q % ID_RANGE); }
    }
  }

  lemma TrackedLonger(s: Stream, packets: seq<Packet>, n: nat, queue: seq<Wire>, ps: set<nat>)
    requires Tracked(s, n, queue, ps) && s.packets <= packets && s.start + |packets| <= STREAM_LIMIT
    ensures Tracked(s.(packets := packets), n, queue, ps)
  {
    hide First, Queued, Strays;
    var long := s.(packets := packets);
    forall w | w in multiset(queue)
      ensures Waits(long, n, n, w)
    {
      assert Waits(s, n, n, w);
    }
    forall p | p in ps
      ensures long.start <= p < long.End() && long.At(p) == s.At(p)
    {
    }
  }

  /** The loop that gets a round past a doubled packet takes something out of step: its copy. */
  lemma {:induction false} LoopTakesCopy(s: Stream, n: nat, queue: seq<Wire>, ps: set<nat>, p: nat) returns (i: nat)
    requires Tracked(s, n, queue, ps) && n < s.End() && p in ps
    requires n < p + ID_RANGE <= n + |Taken(queue, s.At(n)).0|
    ensures i < |Taken(queue, s.At(n)).0| && Taken(queue, s.At(n)).0[i].Position() != n + i
    ensures p < n ==> i == p + ID_RANGE - n && Taken(queue, s.At(n)).0[i] == s.At(p)
  {
    hide Taken, First, Strays;
    var w, ws := s.At(n), Taken(queue, s.At(n)).0;
    AtIsGenuine(s, p);
    if p < n {
      TakenMeetsCopy(queue, w, n, p, s.At(p));
      i := p + ID_RANGE - n;
    } else {
      i := MAX_QUEUE_LEN;
      TakenSplits(queue, w);
      assert ws[1..][i - 1] == ws[i];
      assert ws[i] in multiset(ws[1..]) && ws[i] in multiset(queue);
      assert Waits(s, n, n, ws[i]);
    }
  }
}
