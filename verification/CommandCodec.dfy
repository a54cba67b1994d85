/**
 * The packet codec of the command channel: numbering and encryption on the way out; on the
 * way in the receive window, decryption under the inferred generation, the queue of packets
 * that came too early, and reassembly.
 * Decryption is ideal: it succeeds exactly under the generation used for encryption.
 */
module CommandCodec {
  import opened Prelude
  import opened PacketIds
  import opened Fragmentation

  const MAX_QUEUE_LEN: int := 200

  /** A command packet on the wire, with the generation it was encrypted under. */
  datatype Wire = Wire(id: u16, generation: u32, packet: Packet) {
    function Position(): nat {
      PartialPacketId(generation, id).Full()
    }
  }

  datatype Receiver = Receiver(next: PartialPacketId, queue: seq<Wire>, pending: Option<Packet>)

  datatype ReceiveError =
    | WrongMac | UnallowedUnencrypted | NotInReceiveWindow
    | CommandQueueFull | FragmentQueueFull | DecompressFailed
  {
    /** Returned as `Err`, which ends the connection; the others are items of the stream. */
    predicate Fatal() {
      CommandQueueFull? || FragmentQueueFull? || DecompressFailed?
    }
  }

  datatype CommandResult = Released(packets: seq<Packet>) | Failed(error: ReceiveError)

  /** The first queued packet with an id, and the others. */
  function Extract(queue: seq<Wire>, id: u16): (r: Option<(Wire, seq<Wire>)>)
    ensures r.Some? ==> |r.value.1| < |queue|
  {
    if queue == [] then None
    else if queue[0].id == id then Some((queue[0], queue[1..]))
    else match Extract(queue[1..], id)
      case Some((w, rest)) => Some((w, [queue[0]] + rest))
      case None => None
  }

  /** The loop for an in-order packet w; `out` is what it released so far. */
  function Drain(codec: Codec, r: Receiver, w: Wire, out: seq<Packet>): (Receiver, CommandResult)
    decreases |r.queue|
  {
    var next := r.next.Plus(1);
    match Absorb(codec, r.pending, w.packet)
    case FragmentQueueFull(pending) => (Receiver(next, r.queue, pending), Failed(ReceiveError.FragmentQueueFull))
    case DecompressFailed(pending) => (Receiver(next, r.queue, pending), Failed(ReceiveError.DecompressFailed))
    case Absorbed(pending, released) =>
      var out' := if released.Some? then out + [released.value] else out;
      match Extract(r.queue, (w.id + 1) % ID_RANGE)
      case None => (Receiver(next, r.queue, pending), Released(out'))
      case Some((w', rest)) => Drain(codec, Receiver(next, rest, pending), w', out')
  }

  /** Packets towards the server carry the new-protocol flag. */
  function Outgoing(packet: Packet): Packet {
    if packet.dir == C2S then packet.(flags := packet.flags.(newProtocol := true)) else packet
  }

  lemma OutgoingFlags(packet: Packet)
    ensures Outgoing(packet).flags.unencrypted == packet.flags.unencrypted
    ensures Outgoing(packet).flags.newProtocol <==> packet.flags.newProtocol || packet.dir == C2S
  {
  }

  /** The 200 ids from the expected one on, as the program tests for them. */
  predicate InQueueRange(next: u16, id: u16) {
    var limit := (next + MAX_QUEUE_LEN) % ID_RANGE;
    var nextGen := next + MAX_QUEUE_LEN >= ID_RANGE;
    (!nextGen && id >= next && id < limit) || (nextGen && (id >= next || id < limit))
  }

  function HandleCommand(codec: Codec, r: Receiver, w: Wire): (Receiver, CommandResult) {
    if r.next.id == w.id then Drain(codec, r, w, [])
    else if InQueueRange(r.next.id, w.id) then (r.(queue := r.queue + [w]), Released([]))
    else (r, Failed(CommandQueueFull))
  }

  datatype Reaction =
    Reaction(receiver: Receiver, released: seq<Packet>, ack: Option<u16>, error: Option<ReceiveError>)

  /** `handle_udp_packet` for a command packet of an established connection. */
  function HandleUdp(codec: Codec, r: Receiver, w: Wire): Reaction {
    var win := InReceiveWindow(r.next, w.id);
    if !win.inWindow then Reaction(r, [], Some(w.id), Some(NotInReceiveWindow))
    else if w.packet.flags.unencrypted then Reaction(r, [], None, Some(UnallowedUnencrypted))
    else if win.generation != w.generation then Reaction(r, [], None, Some(WrongMac))
    else match HandleCommand(codec, r, w)
      case (r', Released(packets)) => Reaction(r', packets, Some(w.id), None)
      case (r', Failed(error)) => Reaction(r', [], None, Some(error))
  }

  /** Without the key, a packet is unencrypted, or it does not decrypt under the generation inferred for it. */
  predicate Forged(r: Receiver, w: Wire) {
    w.packet.flags.unencrypted || w.generation != InReceiveWindow(r.next, w.id).generation
  }

  /**
   * For any receiver: a forged packet is refused, and changes nothing. It is never the end of the connection,
   * and it is acked exactly if its id is outside of the window, where nothing is decrypted.
   */
  lemma ForgedIsRefused(codec: Codec, r: Receiver, w: Wire)
    requires Forged(r, w)
    ensures var re, win := HandleUdp(codec, r, w), InReceiveWindow(r.next, w.id);
      && re.receiver == r && re.released == []
      && re.ack == (if win.inWindow then None else Some(w.id))
      && re.error == Some(if !win.inWindow then NotInReceiveWindow
                          else if w.packet.flags.unencrypted then UnallowedUnencrypted else WrongMac)
      && !re.error.value.Fatal()
  {
  }

  /** What is released, kept or counted is encrypted, under the generation inferred for it, and in the window. */
  lemma OnlyAuthenticEnters(codec: Codec, r: Receiver, w: Wire)
    ensures var re, win := HandleUdp(codec, r, w), InReceiveWindow(r.next, w.id);
      re.receiver != r || re.released != [] || (re.error.Some? && re.error.value.Fatal()) ==>
        !w.packet.flags.unencrypted && win.inWindow && w.generation == win.generation
  {
    hide Drain;
  }

  lemma {:induction false} ExtractAt(queue: seq<Wire>, id: u16, pos: nat)
    requires pos <= |queue| && forall i :: 0 <= i < pos ==> queue[i].id != id
    requires pos < |queue| ==> queue[pos].id == id
    ensures Extract(queue, id) ==
            if pos < |queue| then Some((queue[pos], queue[..pos] + queue[pos + 1..])) else None
  {
    if queue != [] {
      if pos == 0 {
        assert queue[..0] + queue[1..] == queue[1..];
      } else {
        ExtractAt(queue[1..], id, pos - 1);
        WithoutLater(queue, pos);
      }
    }
  }

  lemma WithoutLater<T>(s: seq<T>, pos: nat)
    requires 1 <= pos <= |s|
    ensures pos < |s| ==> s[..pos] + s[pos + 1..] == [s[0]] + (s[1..][..pos - 1] + s[1..][pos..])
  {
  }

  /** A packet for the resender; it is filed under this generation and its own id. */
  datatype OutUdpPacket = OutUdpPacket(generation: u32, wire: Wire) {
    function Key(): nat {
      PartialPacketId(generation, wire.id).Full()
    }
  }

  /** The id and the encryption of position p; the generation it is filed under is that of p + 1. */
  function Numbered(p: nat, packet: Packet): OutUdpPacket {
    OutUdpPacket(Of(p + 1).generation, Wire(p % ID_RANGE, Of(p).generation, packet))
  }

  lemma NumberedFrom(p: nat, packet: Packet)
    ensures Of(p).Plus(1) == Of(p + 1)
    ensures Numbered(p, packet) == OutUdpPacket(Of(p + 1).generation, Wire(Of(p).id, Of(p).generation, packet))
  {
    OfPlusOne(p);
  }

  /** The resender files a packet under its own position, but for the last id of a generation. */
  lemma FiledUnderPosition(p: nat, packet: Packet)
    requires p < FULL_RANGE - ID_RANGE
    ensures Numbered(p, packet).Key() == p <==> p % ID_RANGE != ID_RANGE - 1
    ensures p % ID_RANGE == ID_RANGE - 1 ==> Numbered(p, packet).Key() == p + ID_RANGE
  {
    if p % ID_RANGE == ID_RANGE - 1 {
      OfUnique(p + 1, p / ID_RANGE + 1, 0);
    } else {
      OfUnique(p + 1, p / ID_RANGE, p % ID_RANGE + 1);
    }
  }

  /** The fields of `PacketCodec` for one of the two command types. */
  class PacketCodec {
    const codec: Codec
    var outgoing: PartialPacketId
    var incoming: PartialPacketId
    var receiveQueue: seq<Wire>
    var fragmentedQueue: Option<Packet>

    function State(): Receiver
      reads this
    {
      Receiver(incoming, receiveQueue, fragmentedQueue)
    }

    constructor (codec: Codec, outgoing: PartialPacketId, incoming: PartialPacketId)
      ensures this.codec == codec && this.outgoing == outgoing && State() == Receiver(incoming, [], None)
    {
      this.codec, this.outgoing, this.incoming := codec, outgoing, incoming;
      receiveQueue, fragmentedQueue := [], None;
    }

    /** With n the position of the next id, fragment i becomes position n + i. */
    method EncodePacket(packet: Packet) returns (packets: seq<OutUdpPacket>)
      modifies this`outgoing
      ensures var ps, n := Split(codec, Outgoing(packet)), old(outgoing).Full();
        |packets| == |ps| && outgoing == Of(n + |ps|)
        && forall i :: 0 <= i < |ps| ==> packets[i] == Numbered(n + i, ps[i])
      ensures forall i {:trigger packets[i]} :: 0 <= i < |packets| ==>
                var flags := packets[i].wire.packet.flags;
                && (flags.newProtocol <==> packet.flags.newProtocol || packet.dir == C2S)
                && flags.unencrypted == packet.flags.unencrypted
    {
      hide Numbered, Of, PartialPacketId.Full, PartialPacketId.Plus, Split, Outgoing;
      var split := CompressAndSplit(codec, Outgoing(packet));
      ghost var n := outgoing.Full();
      FullIsOrderIsomorphism(outgoing, outgoing, n);
      packets := [];
      SplitFlags(codec, Outgoing(packet));
      OutgoingFlags(packet);
      for k := 0 to |split|
        invariant |packets| == k && outgoing == Of(n + k)
        invariant forall i :: 0 <= i < k ==> packets[i] == Numbered(n + i, split[i])
        invariant forall i {:trigger packets[i]} :: 0 <= i < k ==> packets[i].wire.packet == split[i]
      {
        var wire := Wire(outgoing.id, outgoing.generation, split[k]);
        NumberedFrom(n + k, split[k]);
        outgoing := outgoing.Plus(1);
        packets := packets + [OutUdpPacket(outgoing.generation, wire)];
      }
    }

    method HandleCommandPacket(w: Wire) returns (result: CommandResult)
      modifies this
      ensures (State(), result) == HandleCommand(codec, old(State()), w)
    {
      if incoming.id != w.id {
        if InQueueRange(incoming.id, w.id) {
          receiveQueue := receiveQueue + [w];
          return Released([]);
        }
        return Failed(CommandQueueFull);
      }
      var packets, current := [], w;
      while true
        invariant Drain(codec, old(State()), w, []) == Drain(codec, State(), current, packets)
        decreases |receiveQueue|
      {
        incoming := incoming.Plus(1);
        var absorbed := Absorb(codec, fragmentedQueue, current.packet);
        fragmentedQueue := absorbed.pending;
        match absorbed {
          case FragmentQueueFull(_) => return Failed(ReceiveError.FragmentQueueFull);
          case DecompressFailed(_) => return Failed(ReceiveError.DecompressFailed);
          case Absorbed(_, released) =>
            if released.Some? {
              packets := packets + [released.value];
            }
        }
        var pos := Position((current.id + 1) % ID_RANGE);
        if pos == |receiveQueue| {
          return Released(packets);
        }
        current := receiveQueue[pos];
        receiveQueue := receiveQueue[..pos] + receiveQueue[pos + 1..];
      }
    }

    /** The index of the first queued packet with an id, or the length of the queue. */
    method Position(id: u16) returns (pos: nat)
      ensures pos <= |receiveQueue|
      ensures Extract(receiveQueue, id) ==
              if pos < |receiveQueue| then Some((receiveQueue[pos], receiveQueue[..pos] + receiveQueue[pos + 1..]))
              else None
    {
      pos := 0;
      while pos < |receiveQueue| && receiveQueue[pos].id != id
        invariant pos <= |receiveQueue|
        invariant forall i :: 0 <= i < pos ==> receiveQueue[i].id != id
      {
        pos := pos + 1;
      }
      ExtractAt(receiveQueue, id, pos);
    }

    method HandleUdpPacket(w: Wire) returns (released: seq<Packet>, ack: Option<u16>, error: Option<ReceiveError>)
      modifies this
      ensures Reaction(State(), released, ack, error) == HandleUdp(codec, old(State()), w)
    {
      released, ack, error := [], None, None;
      var win := InReceiveWindow(incoming, w.id);
      if win.inWindow {
        if w.packet.flags.unencrypted {
          error := Some(UnallowedUnencrypted);
          return;
        }
        if win.generation != w.generation {
          error := Some(WrongMac);
          return;
        }
        var result := HandleCommandPacket(w);
        match result {
          case Released(packets) => released := packets;
          case Failed(e) =>
            error := Some(e);
            return;
        }
      } else {
        error := Some(NotInReceiveWindow);
      }
      ack := Some(w.id);
    }
  }

  // ---------------------------------------------------------------- positions

  /** Positions stay clear of the end of the 48-bit range. */
  const STREAM_LIMIT: int := FULL_RANGE - ID_RANGE

  /** The packets sent on one stream, the first at position `start`. */
  datatype Stream = Stream(start: nat, packets: seq<Packet>) {
    function End(): nat {
      start + |packets|
    }

    function At(p: nat): Wire
      requires start <= p < End()
    {
      Wire(p % ID_RANGE, Of(p).generation, packets[p - start])
    }

    predicate Genuine(w: Wire) {
      start <= w.Position() < End() && packets[w.Position() - start] == w.packet
    }

    /** w is the packet of position p. */
    predicate Holds(w: Wire, p: int) {
      Genuine(w) && w.Position() == p
    }

    ghost predicate Valid(codec: Codec) {
      End() <= STREAM_LIMIT
      && (forall i :: 0 <= i < |packets| ==> !packets[i].flags.unencrypted)
      && !Assemble(codec, NOTHING, packets).failed
    }

    /** What reassembly makes of everything before position n. */
    function Before(codec: Codec, n: nat): Assembly
      requires start <= n <= End()
    {
      Assemble(codec, NOTHING, packets[..n - start])
    }
  }

  lemma AtIsGenuine(s: Stream, p: nat)
    requires s.start <= p < s.End() <= FULL_RANGE
    ensures s.Holds(s.At(p), p)
  {
    OfFull(p);
    assert s.At(p).Position() == Of(p).Full();
  }

  /**
   * A queue, order aside, of positions ahead of n; a stale or repeated entry is tolerated
   * while no id up to `horizon` aliases it.
   */
  ghost predicate QueueFrom(s: Stream, horizon: nat, n: nat, queue: multiset<Wire>) {
    forall w {:trigger queue[w]} :: w in queue ==>
      Waits(s, horizon, n, w) && (queue[w] > 1 ==> horizon < w.Position() + ID_RANGE)
  }

  predicate Waits(s: Stream, horizon: nat, n: nat, w: Wire) {
    s.Genuine(w) && w.Position() < n + MAX_QUEUE_LEN && (n < w.Position() || horizon < w.Position() + ID_RANGE)
  }

  /** A horizon behind every alias: nothing stale or repeated is tolerated. */
  const NO_STALE: int := 2 * FULL_RANGE

  ghost predicate Queued(queue: multiset<Wire>, p: nat) {
    exists w {:trigger queue[w]} :: w in queue && w.Position() == p
  }

  lemma {:induction false} ExtractCorrect(queue: seq<Wire>, id: u16)
    ensures match Extract(queue, id)
      case Some((w, rest)) => w.id == id && multiset(queue) == multiset(rest) + multiset{w}
      case None => forall w {:trigger multiset(queue)[w]} :: w in multiset(queue) ==> w.id != id
  {
    if queue != [] {
      assert queue == [queue[0]] + queue[1..];
      if queue[0].id != id {
        ExtractCorrect(queue[1..], id);
      }
    }
  }

  lemma QueueWithout(s: Stream, horizon: nat, n: nat, queue: multiset<Wire>, rest: multiset<Wire>, w: Wire)
    requires QueueFrom(s, horizon, n, queue) && queue == rest + multiset{w} && w.Position() == n + 1
    ensures QueueFrom(s, horizon, n + 1, rest)
  {
    assert w in queue;
    forall w' | w' in rest
      ensures Waits(s, horizon, n + 1, w') && queue[w'] >= rest[w']
    {
      assert w' in queue;
      if w'.Position() == n + 1 {
        SamePosition(s, w, w');
        assert queue[w'] == rest[w'] + 1;
      }
    }
  }

  lemma SamePosition(s: Stream, w: Wire, w': Wire)
    requires s.Genuine(w) && s.Genuine(w') && w.Position() == w'.Position()
    ensures w == w'
  {
  }

  /** An id that matches a queued packet belongs to the position looked for. */
  lemma MatchIsNext(s: Stream, horizon: nat, n: nat, queue: multiset<Wire>, w: Wire)
    requires s.End() <= STREAM_LIMIT && n < s.End() && n < horizon
    requires QueueFrom(s, horizon, n, queue) && w in queue
    requires w.id == (n + 1) % ID_RANGE
    ensures w.Position() == n + 1
  {
    var p := w.Position();
    OfUnique(p, w.generation, w.id);
    if p < n + 1 {
      Congruent(n + 1, p);
    } else if p > n + 1 {
      Congruent(p, n + 1);
    }
  }

  lemma Congruent(a: int, b: int)
    requires a > b && a % ID_RANGE == b % ID_RANGE
    ensures a >= b + ID_RANGE
  {
  }

  lemma NotQueuedIfNoMatch(n: nat, queue: seq<Wire>)
    requires Extract(queue, n % ID_RANGE).None?
    ensures !Queued(multiset(queue), n)
  {
    ExtractCorrect(queue, n % ID_RANGE);
    forall w | w in multiset(queue) && w.Position() == n
      ensures false
    {
      OfUnique(n, w.generation, w.id);
    }
  }

  lemma BeforeNeverFails(codec: Codec, s: Stream, n: nat)
    requires s.Valid(codec) && s.start <= n <= s.End()
    ensures !s.Before(codec, n).failed
  {
    var k := n - s.start;
    assert s.packets == s.packets[..k] + s.packets[k..];
    AssembleConcat(codec, NOTHING, s.packets[..k], s.packets[k..]);
    AssembleExtends(codec, s.Before(codec, n), s.packets[k..]);
  }

  lemma BeforeLater(codec: Codec, s: Stream, n: nat, n': nat)
    requires s.Valid(codec) && s.start <= n <= n' <= s.End()
    ensures s.Before(codec, n') == Assemble(codec, s.Before(codec, n), s.packets[n - s.start..n' - s.start])
    ensures !s.Before(codec, n').failed
  {
    var i, j := n - s.start, n' - s.start;
    assert s.packets[..j] == s.packets[..i] + s.packets[i..j];
    AssembleConcat(codec, NOTHING, s.packets[..i], s.packets[i..j]);
    BeforeNeverFails(codec, s, n');
  }

  /** The receiver has consumed exactly the stream before n and released `released` in all. */
  ghost predicate InSync(codec: Codec, s: Stream, horizon: nat, n: nat, r: Receiver, released: seq<Packet>) {
    s.start <= n <= s.End()
    && r.next == Of(n)
    && QueueFrom(s, horizon, n, multiset(r.queue))
    && s.Before(codec, n) == Assembly(r.pending, released, false)
  }

  // ---------------------------------------------------------------- the loop

  /** The packets the loop goes through, starting with w, and the queue it leaves. */
  function Taken(queue: seq<Wire>, w: Wire): (seq<Wire>, seq<Wire>)
    decreases |queue|
  {
    match Extract(queue, (w.id + 1) % ID_RANGE)
    case None => ([w], queue)
    case Some((w', q)) => var (ws, rest) := Taken(q, w'); ([w] + ws, rest)
  }

  function Packets(ws: seq<Wire>): (ps: seq<Packet>)
    ensures |ps| == |ws|
  {
    seq(|ws|, i requires 0 <= i < |ws| => ws[i].packet)
  }

  function Ahead(next: PartialPacketId, k: nat): PartialPacketId
    decreases k
  {
    if k == 0 then next else Ahead(next.Plus(1), k - 1)
  }

  lemma {:induction false} AheadOfPosition(n: nat, k: nat)
    ensures Ahead(Of(n), k) == Of(n + k)
    decreases k
  {
    if k > 0 {
      OfPlusOne(n);
      AheadOfPosition(n + 1, k - 1);
    }
  }

  /** The loop is reassembly of the packets it takes; `earlier` was released by earlier calls. */
  lemma {:induction false} DrainIsAssembly(codec: Codec, r: Receiver, w: Wire, earlier: seq<Packet>, out: seq<Packet>)
    requires !Assemble(codec, Assembly(r.pending, earlier + out, false), Packets(Taken(r.queue, w).0)).failed
    ensures var end := Assemble(codec, Assembly(r.pending, earlier + out, false), Packets(Taken(r.queue, w).0));
      var (r', res) := Drain(codec, r, w, out);
      res.Released? && end == Assembly(r'.pending, earlier + res.packets, false)
    decreases |r.queue|
  {
    var ws := Taken(r.queue, w).0;
    var a, out1 := AbsorbFirst(codec, r.pending, ws, earlier, out);
    match Extract(r.queue, (w.id + 1) % ID_RANGE)
    case None =>
      assert Packets(ws)[1..] == [];
    case Some((w', q)) =>
      assert Packets(ws)[1..] == Packets(Taken(q, w').0);
      DrainIsAssembly(codec, Receiver(r.next.Plus(1), q, a.pending), w', earlier, out1);
  }

  lemma AbsorbFirst(codec: Codec, pending: Option<Packet>, ws: seq<Wire>, earlier: seq<Packet>, out: seq<Packet>)
    returns (a: Absorbed, out1: seq<Packet>)
    requires ws != [] && !Assemble(codec, Assembly(pending, earlier + out, false), Packets(ws)).failed
    ensures a == Absorb(codec, pending, ws[0].packet) && a.Absorbed?
    ensures out1 == if a.released.Some? then out + [a.released.value] else out
    ensures Assemble(codec, Assembly(pending, earlier + out, false), Packets(ws))
            == Assemble(codec, Assembly(a.pending, earlier + out1, false), Packets(ws)[1..])
  {
    var s := Assembly(pending, earlier + out, false);
    a := Absorb(codec, pending, ws[0].packet);
    AssembleExtends(codec, AbsorbStep(codec, s, ws[0].packet), Packets(ws)[1..]);
    assert a.Absorbed?;
    out1 := if a.released.Some? then out + [a.released.value] else out;
    assert a.released.Some? ==> (earlier + out) + [a.released.value] == earlier + out1;
  }

  lemma {:induction false} DrainAdvances(codec: Codec, r: Receiver, w: Wire, out: seq<Packet>)
    requires Drain(codec, r, w, out).1.Released?
    ensures var r' := Drain(codec, r, w, out).0;
      r'.next == Ahead(r.next, |Taken(r.queue, w).0|) && r'.queue == Taken(r.queue, w).1
    decreases |r.queue|
  {
    var a := Absorb(codec, r.pending, w.packet);
    assert a.Absorbed?;
    match Extract(r.queue, (w.id + 1) % ID_RANGE)
    case None =>
      assert Ahead(r.next, 1) == Ahead(r.next.Plus(1), 0);
    case Some((w', q)) =>
      DrainAdvances(codec, Receiver(r.next.Plus(1), q, a.pending), w',
                    if a.released.Some? then out + [a.released.value] else out);
  }

  /** What the loop looks for after position n: nothing, or exactly the packet of position n + 1. */
  lemma NextTaken(s: Stream, horizon: nat, n: nat, queue: seq<Wire>, w: Wire)
    requires s.End() <= STREAM_LIMIT && (s.End() <= horizon || n < horizon)
    requires s.Holds(w, n) && QueueFrom(s, horizon, n, multiset(queue))
    ensures match Extract(queue, (w.id + 1) % ID_RANGE)
      case None =>
        !Queued(multiset(queue), n + 1) && QueueFrom(s, horizon, n + 1, multiset(queue))
      case Some((w', q)) =>
        s.Holds(w', n + 1) && multiset(queue) == multiset(q) + multiset{w'}
        && QueueFrom(s, horizon, n + 1, multiset(q))
  {
    hide Extract;
    OfUnique(n, w.generation, w.id);
    IdAfter(n);
    ExtractCorrect(queue, (n + 1) % ID_RANGE);
    match Extract(queue, (n + 1) % ID_RANGE)
    case None =>
      NotQueuedIfNoMatch(n + 1, queue);
    case Some((w', q)) =>
      MatchIsNext(s, horizon, n, multiset(queue), w');
      QueueWithout(s, horizon, n, multiset(queue), multiset(q), w');
  }

  lemma IdAfter(n: nat)
    ensures (n % ID_RANGE + 1) % ID_RANGE == (n + 1) % ID_RANGE
  {
  }

  /** The packets taken are consecutive positions, ... */
  lemma {:induction false} TakenIsConsecutive(s: Stream, horizon: nat, n: nat, queue: seq<Wire>, w: Wire)
    requires s.End() <= STREAM_LIMIT && (s.End() <= horizon || n + |Taken(queue, w).0| <= horizon)
    requires s.Holds(w, n) && QueueFrom(s, horizon, n, multiset(queue))
    ensures var ws := Taken(queue, w).0;
      n + |ws| <= s.End() && forall i {:trigger ws[i]} :: 0 <= i < |ws| ==> s.Holds(ws[i], n + i)
    decreases |queue|
  {
    hide Extract, QueueFrom;
    NextTaken(s, horizon, n, queue, w);
    match Extract(queue, (w.id + 1) % ID_RANGE)
    case None =>
    case Some((w', q)) => TakenIsConsecutive(s, horizon, n + 1, q, w');
  }

  /** ... the queue left behind fits the position after them, ... */
  lemma {:induction false} TakenLeavesQueue(s: Stream, horizon: nat, n: nat, queue: seq<Wire>, w: Wire)
    requires s.End() <= STREAM_LIMIT && (s.End() <= horizon || n + |Taken(queue, w).0| <= horizon)
    requires s.Holds(w, n) && QueueFrom(s, horizon, n, multiset(queue))
    ensures QueueFrom(s, horizon, n + |Taken(queue, w).0|, multiset(Taken(queue, w).1))
    decreases |queue|
  {
    hide Extract, QueueFrom, Stream.Holds;
    NextTaken(s, horizon, n, queue, w);
    match Extract(queue, (w.id + 1) % ID_RANGE)
    case None =>
    case Some((w', q)) => TakenLeavesQueue(s, horizon, n + 1, q, w');
  }

  /** ... and they are the longest run available: it ends at the first position that is missing. */
  lemma {:induction false} TakenStopsAtFirstGap(s: Stream, horizon: nat, n: nat, queue: seq<Wire>, w: Wire)
    requires s.End() <= STREAM_LIMIT && (s.End() <= horizon || n + |Taken(queue, w).0| <= horizon)
    requires s.Holds(w, n) && QueueFrom(s, horizon, n, multiset(queue))
    ensures LongestRun(multiset(queue), multiset(Taken(queue, w).1), n, n + |Taken(queue, w).0|)
    decreases |queue|
  {
    hide Extract, QueueFrom, Stream.Genuine;
    NextTaken(s, horizon, n, queue, w);
    match Extract(queue, (w.id + 1) % ID_RANGE)
    case None =>
    case Some((w', q)) =>
      TakenStopsAtFirstGap(s, horizon, n + 1, q, w');
      RunExtends(multiset(queue), multiset(q), multiset(Taken(q, w').1), w', n, n + 1 + |Taken(q, w').0|);
  }

  /** The positions from n to n' leave the queue, no others; n' is not available. */
  ghost predicate LongestRun(queue: multiset<Wire>, queue': multiset<Wire>, n: nat, n': nat) {
    n < n' && !Queued(queue', n')
    && (forall p: nat :: n < p < n' ==> Queued(queue, p))
    && (forall p: nat :: p >= n' || p < n ==> (Queued(queue', p) <==> Queued(queue, p)))
  }

  lemma RunExtends(queue: multiset<Wire>, q: multiset<Wire>, queue': multiset<Wire>, w: Wire, n: nat, n': nat)
    requires queue == q + multiset{w} && w.Position() == n + 1
    requires LongestRun(q, queue', n + 1, n')
    ensures LongestRun(queue, queue', n, n')
  {
    hide Queued;
    forall p: nat
      ensures Queued(queue, p) <==> Queued(q, p) || p == n + 1
    {
      QueuedOneMore(queue, q, w, p);
    }
  }

  lemma QueuedOneMore(queue: multiset<Wire>, q: multiset<Wire>, w: Wire, p: nat)
    requires queue == q + multiset{w}
    ensures Queued(queue, p) <==> Queued(q, p) || p == w.Position()
  {
    assert w in queue;
    if Queued(queue, p) && p != w.Position() {
      var w' :| w' in queue && w'.Position() == p;
      assert w' in q;
    }
    if Queued(q, p) {
      var w' :| w' in q && w'.Position() == p;
      assert w' in queue;
    }
  }

  /**
   * An in-order packet releases the longest run of consecutive positions that is
   * available, and leaves the receiver in step with the stream behind that run.
   */
  lemma {:induction false} DrainReleasesRun(
    codec: Codec, s: Stream, horizon: nat, n: nat, r: Receiver, released: seq<Packet>) returns (n': nat)
    requires s.Valid(codec) && s.start <= n < s.End()
    requires s.End() <= horizon || n + |Taken(r.queue, s.At(n)).0| <= horizon
    requires InSync(codec, s, horizon, n, r, released)
    ensures n' == n + |Taken(r.queue, s.At(n)).0|
    ensures var (r', res) := Drain(codec, r, s.At(n), []);
      res.Released? && InSync(codec, s, horizon, n', r', released + res.packets)
      && LongestRun(multiset(r.queue), multiset(r'.queue), n, n')
  {
    hide Taken, Drain, QueueFrom, LongestRun, Stream.Holds, Stream.At;
    AtIsGenuine(s, n);
    n' := n + |Taken(r.queue, s.At(n)).0|;
    TakenIsConsecutive(s, horizon, n, r.queue, s.At(n));
    TakenLeavesQueue(s, horizon, n, r.queue, s.At(n));
    TakenStopsAtFirstGap(s, horizon, n, r.queue, s.At(n));
    DrainFollows(codec, s, n, r, s.At(n), released);
  }

  lemma DrainFollows(codec: Codec, s: Stream, n: nat, r: Receiver, w: Wire, released: seq<Packet>)
    requires s.Valid(codec) && s.start <= n && r.next == Of(n)
    requires n + |Taken(r.queue, w).0| <= s.End() && s.Before(codec, n) == Assembly(r.pending, released, false)
    requires var ws := Taken(r.queue, w).0; forall i {:trigger ws[i]} :: 0 <= i < |ws| ==> s.Holds(ws[i], n + i)
    ensures var (r', res) := Drain(codec, r, w, []); var (ws, rest) := Taken(r.queue, w);
      res.Released? && r'.next == Of(n + |ws|) && r'.queue == rest
      && s.Before(codec, n + |ws|) == Assembly(r'.pending, released + res.packets, false)
  {
    hide Taken, Drain, Assemble, Stream.Valid, Of;
    var ws := Taken(r.queue, w).0;
    assert Packets(ws) == s.packets[n - s.start..n + |ws| - s.start];
    BeforeLater(codec, s, n, n + |ws|);
    assert released + [] == released;
    DrainIsAssembly(codec, r, w, released, []);
    DrainAdvances(codec, r, w, []);
    AheadOfPosition(n, |ws|);
  }

  // ---------------------------------------------------------------- one arriving packet

  /** Position p has been released, or kept for later. */
  ghost predicate Received(r: Receiver, n: nat, p: nat) {
    p < n || Queued(multiset(r.queue), p)
  }

  /** The packets that left the network or the queue when a packet arrived, in this order. */
  function Consumed(codec: Codec, r: Receiver, w: Wire): seq<Wire> {
    if r.next.id == w.id && HandleUdp(codec, r, w).error.None? then Taken(r.queue, w).0 else []
  }

  lemma ForgedIsNotConsumed(codec: Codec, r: Receiver, w: Wire)
    requires Forged(r, w)
    ensures Consumed(codec, r, w) == []
  {
    ForgedIsRefused(codec, r, w);
  }

  /** The effect of a packet of position p on a receiver that expects position n. */
  ghost predicate GoodReaction(
    codec: Codec, s: Stream, horizon: nat, n: nat, r: Receiver, released: seq<Packet>, p: nat, n': nat, re: Reaction)
  {
    n <= n' && InSync(codec, s, horizon, n', re.receiver, released + re.released)
    && !Queued(multiset(re.receiver.queue), n')
    && (forall q: nat :: Received(r, n, q) ==> Received(re.receiver, n', q))
    && (forall q: nat :: Received(re.receiver, n', q) ==> Received(r, n, q) || q == p)
    && (re.ack.Some? ==> re.ack.value == p % ID_RANGE && (p < n + WINDOW ==> Received(re.receiver, n', p)))
    && (n - 32769 <= p < n + MAX_QUEUE_LEN ==> re.ack.Some?)
    && (re.error.Some? && re.error.value.Fatal() <==> n + MAX_QUEUE_LEN <= p < n + WINDOW)
  }

  lemma {:induction false} InOrderReaction(
    codec: Codec, s: Stream, horizon: nat, n: nat, r: Receiver, released: seq<Packet>) returns (n': nat)
    requires s.Valid(codec) && s.start <= n < s.End()
    requires s.End() <= horizon || n + |Taken(r.queue, s.At(n)).0| <= horizon
    requires InSync(codec, s, horizon, n, r, released)
    ensures GoodReaction(codec, s, horizon, n, r, released, n, n', HandleUdp(codec, r, s.At(n)))
    ensures n' == n + |Consumed(codec, r, s.At(n))|
  {
    NearPositionsAreRecovered(n, n);
    n' := DrainReleasesRun(codec, s, horizon, n, r, released);
  }

  /** A packet that is early, but by less than 200 positions, is kept. */
  lemma {:induction false} EarlyReaction(
    codec: Codec, s: Stream, horizon: nat, n: nat, r: Receiver, released: seq<Packet>, p: nat)
    requires s.Valid(codec) && n < p < s.End() && p < n + MAX_QUEUE_LEN
    requires InSync(codec, s, horizon, n, r, released) && !Queued(multiset(r.queue), n)
    requires Queued(multiset(r.queue), p) ==> horizon < p + ID_RANGE
    ensures HandleUdp(codec, r, s.At(p)).receiver == r.(queue := r.queue + [s.At(p)])
    ensures GoodReaction(codec, s, horizon, n, r, released, p, n, HandleUdp(codec, r, s.At(p)))
  {
    var w := s.At(p);
    NearPositionsAreRecovered(n, p);
    EarlyId(n, p);
    AtIsGenuine(s, p);
    assert released + [] == released;
    assert HandleUdp(codec, r, w) == Reaction(r.(queue := r.queue + [w]), [], Some(w.id), None);
    EarlyQueue(s, horizon, n, multiset(r.queue), p, w);
    assert multiset(r.queue + [w]) == multiset(r.queue) + multiset{w};
    forall q: nat
      ensures Queued(multiset(r.queue + [w]), q) <==> Queued(multiset(r.queue), q) || q == p
    {
      QueuedOneMore(multiset(r.queue + [w]), multiset(r.queue), w, q);
    }
  }

  lemma EarlyQueue(s: Stream, horizon: nat, n: nat, queue: multiset<Wire>, p: nat, w: Wire)
    requires QueueFrom(s, horizon, n, queue) && s.Holds(w, p) && n < p < n + MAX_QUEUE_LEN
    requires Queued(queue, p) ==> horizon < p + ID_RANGE
    ensures QueueFrom(s, horizon, n, queue + multiset{w})
  {
    assert w in queue ==> Queued(queue, p);
  }

  /**
   * The queue of an exact receiver - nothing stale, nothing twice - stays exact if and only
   * if the id of the early packet is not waiting already. The program does not test for it.
   */
  lemma QueueStaysExactIff(s: Stream, n: nat, queue: seq<Wire>, p: nat)
    requires s.End() <= STREAM_LIMIT && s.start <= n < p < s.End() && p < n + MAX_QUEUE_LEN
    requires QueueFrom(s, NO_STALE, n, multiset(queue))
    ensures QueueFrom(s, NO_STALE, n, multiset(queue + [s.At(p)])) <==> Extract(queue, p % ID_RANGE).None?
  {
    AtIsGenuine(s, p);
    assert multiset(queue + [s.At(p)]) == multiset(queue) + multiset{s.At(p)};
    ExtractCorrect(queue, p % ID_RANGE);
    match Extract(queue, p % ID_RANGE)
    case None =>
      NotQueuedIfNoMatch(p, queue);
      EarlyQueue(s, NO_STALE, n, multiset(queue), p, s.At(p));
    case Some((w, rest)) =>
      assert w in multiset(queue);
      OfUnique(w.Position(), w.generation, w.id);
      if w.Position() < p { Congruent(p, w.Position()); } else if w.Position() > p { Congruent(w.Position(), p); }
      SamePosition(s, w, s.At(p));
      assert (multiset(queue) + multiset{s.At(p)})[w] > 1;
  }

  /** An exact queue holds at most 199 packets. */
  lemma ExactQueueIsShort(s: Stream, n: nat, queue: multiset<Wire>)
    requires s.End() <= STREAM_LIMIT && QueueFrom(s, NO_STALE, n, queue)
    ensures |queue| <= MAX_QUEUE_LEN - 1
  {
    BagBound(s, n, queue, MAX_QUEUE_LEN - 1);
  }

  lemma {:induction false} BagBound(s: Stream, n: nat, queue: multiset<Wire>, k: nat)
    requires forall w {:trigger queue[w]} :: w in queue ==>
      s.Genuine(w) && n < w.Position() <= n + k && queue[w] == 1
    ensures |queue| <= k
    decreases k
  {
    if k == 0 {
      assert queue == multiset{};
    } else if w :| w in queue && w.Position() == n + k {
      var rest := queue - multiset{w};
      forall w' | w' in rest
        ensures w'.Position() != n + k && w' in queue
      {
        if w'.Position() == n + k { SamePosition(s, w, w'); }
      }
      BagBound(s, n, rest, k - 1);
    } else {
      BagBound(s, n, queue, k - 1);
    }
  }

  lemma EarlyId(n: nat, p: nat)
    requires n < p < n + WINDOW
    ensures p % ID_RANGE != n % ID_RANGE
    ensures InQueueRange(n % ID_RANGE, p % ID_RANGE) <==> p < n + MAX_QUEUE_LEN
  {
    var d := p - n;
    var r := n % ID_RANGE;
    if r + d < ID_RANGE { OfUnique(p, n / ID_RANGE, r + d); } else { OfUnique(p, n / ID_RANGE + 1, r + d - ID_RANGE); }
  }

  /** Any other packet of the stream leaves the receiver as it was. */
  lemma {:induction false} StrayReaction(
    codec: Codec, s: Stream, horizon: nat, n: nat, r: Receiver, released: seq<Packet>, p: nat)
    requires s.Valid(codec) && s.start <= p < s.End() && (p < n || n + MAX_QUEUE_LEN <= p)
    requires InSync(codec, s, horizon, n, r, released) && !Queued(multiset(r.queue), n)
    ensures HandleUdp(codec, r, s.At(p)).receiver == r
    ensures GoodReaction(codec, s, horizon, n, r, released, p, n, HandleUdp(codec, r, s.At(p)))
  {
    assert released + [] == released;
    if n - 32769 <= p < n + WINDOW {
      NearPositionsAreRecovered(n, p);
      if n < p { EarlyId(n, p); }
    } else {
      WindowRecoversPosition(n, p);
      FarPositions(n, p);
    }
  }

  lemma FarPositions(n: nat, p: nat)
    requires n <= STREAM_LIMIT && p <= STREAM_LIMIT && (p < n || n + WINDOW <= p)
    ensures (p - n) % FULL_RANGE >= WINDOW
  {
    if p < n { OfUnique48(p - n, -1, p - n + FULL_RANGE); } else { OfUnique48(p - n, 0, p - n); }
  }

  lemma OfUnique48(n: int, q: int, r: int)
    requires n == q * FULL_RANGE + r && 0 <= r < FULL_RANGE
    ensures n % FULL_RANGE == r
  {
  }

  /**
   * One arrival, of any position of the stream: the receiver stays in step, forgets
   * nothing, and acks only what it has released or kept (positions 32767 ahead aside).
   */
  lemma {:induction false} ArrivalKeepsStep(
    codec: Codec, s: Stream, horizon: nat, n: nat, r: Receiver, released: seq<Packet>, p: nat) returns (n': nat)
    requires s.Valid(codec) && s.start <= p < s.End()
    requires p == n ==> s.End() <= horizon || n + |Taken(r.queue, s.At(n)).0| <= horizon
    requires InSync(codec, s, horizon, n, r, released) && !Queued(multiset(r.queue), n)
    requires n < p < n + MAX_QUEUE_LEN && Queued(multiset(r.queue), p) ==> horizon < p + ID_RANGE
    ensures GoodReaction(codec, s, horizon, n, r, released, p, n', HandleUdp(codec, r, s.At(p)))
    ensures n' == n + |Consumed(codec, r, s.At(p))|
    ensures forall i {:trigger Consumed(codec, r, s.At(p))[i]} :: 0 <= i < |Consumed(codec, r, s.At(p))| ==>
              n + i < s.End() && Consumed(codec, r, s.At(p))[i] == s.At(n + i)
  {
    if p == n {
      n' := InOrderReaction(codec, s, horizon, n, r, released);
      ConsumedInOrder(codec, s, horizon, n, r);
    } else {
      n' := n;
      NothingConsumed(codec, s, horizon, n, r, released, p);
      if n < p < n + MAX_QUEUE_LEN {
        EarlyReaction(codec, s, horizon, n, r, released, p);
      } else {
        StrayReaction(codec, s, horizon, n, r, released, p);
      }
    }
  }

  lemma ConsumedInOrder(codec: Codec, s: Stream, horizon: nat, n: nat, r: Receiver)
    requires s.End() <= STREAM_LIMIT && s.start <= n < s.End()
    requires s.End() <= horizon || n + |Taken(r.queue, s.At(n)).0| <= horizon
    requires QueueFrom(s, horizon, n, multiset(r.queue))
    ensures var ws := Consumed(codec, r, s.At(n));
      forall i {:trigger ws[i]} :: 0 <= i < |ws| ==> n + i < s.End() && ws[i] == s.At(n + i)
  {
    AtIsGenuine(s, n);
    TakenIsConsecutive(s, horizon, n, r.queue, s.At(n));
    var ws := Taken(r.queue, s.At(n)).0;
    forall i | 0 <= i < |ws|
      ensures n + i < s.End() && ws[i] == s.At(n + i)
    {
      AtIsGenuine(s, n + i);
      SamePosition(s, ws[i], s.At(n + i));
    }
  }

  /** Only the packet of the expected position can be in order. */
  lemma NothingConsumed(codec: Codec, s: Stream, horizon: nat, n: nat, r: Receiver, released: seq<Packet>, p: nat)
    requires s.Valid(codec) && s.start <= p < s.End() && p != n && InSync(codec, s, horizon, n, r, released)
    ensures Consumed(codec, r, s.At(p)) == []
  {
    if p % ID_RANGE == n % ID_RANGE {
      SameIdIsFar(n, p);
      WindowRecoversPosition(n, p);
    }
  }

  lemma SameIdIsFar(n: nat, p: nat)
    requires n <= STREAM_LIMIT && p <= STREAM_LIMIT && p != n && p % ID_RANGE == n % ID_RANGE
    ensures (p - n) % FULL_RANGE >= WINDOW
  {
    if p < n { Congruent(n, p); } else { Congruent(p, n); }
    FarPositions(n, p);
  }

  // ---------------------------------------------------------------- what ends the connection

  lemma {:induction false} DrainNeverFillsQueue(codec: Codec, r: Receiver, w: Wire, out: seq<Packet>)
    ensures Drain(codec, r, w, out).1 != Failed(CommandQueueFull)
    decreases |r.queue|
  {
    var a := Absorb(codec, r.pending, w.packet);
    if a.Absorbed? {
      match Extract(r.queue, (w.id + 1) % ID_RANGE)
      case None =>
      case Some((w', q)) =>
        DrainNeverFillsQueue(codec, Receiver(r.next.Plus(1), q, a.pending), w',
                             if a.released.Some? then out + [a.released.value] else out);
    }
  }

  /**
   * For any receiver and any packet: the command queue counts as full exactly if the packet is
   * 200 to 32766 positions ahead, however few packets the queue holds.
   */
  lemma {:induction false} QueueFullIff(codec: Codec, r: Receiver, w: Wire)
    ensures HandleUdp(codec, r, w).error == Some(CommandQueueFull) <==>
            !w.packet.flags.unencrypted && MAX_QUEUE_LEN <= (w.Position() - r.next.Full()) % FULL_RANGE < WINDOW
  {
    hide Drain, InReceiveWindow, InQueueRange;
    var n, f := r.next.Full(), w.Position();
    var d := (f - n) % FULL_RANGE;
    FullIsOrderIsomorphism(r.next, r.next, n);
    FullIsOrderIsomorphism(PartialPacketId(w.generation, w.id), r.next, f);
    assert Of(n) == r.next && Of(f) == PartialPacketId(w.generation, w.id);
    WindowRecoversPosition(n, f);
    DrainNeverFillsQueue(codec, r, w, []);
    if d < WINDOW {
      WithinHalfRange(f - n);
      SameIdAhead(n, f);
      if d > 0 {
        EarlyId(n, n + d);
      }
    }
  }

  lemma WithinHalfRange(x: int)
    requires x % FULL_RANGE < WINDOW
    ensures (x + 32769) % FULL_RANGE < ID_RANGE
  {
    var k := x / FULL_RANGE;
    OfUnique48(x + 32769, k, x % FULL_RANGE + 32769);
  }

  lemma SameIdAhead(n: nat, f: nat)
    ensures (n + (f - n) % FULL_RANGE) % ID_RANGE == f % ID_RANGE
  {
    var k := (f - n) / FULL_RANGE;
    assert n + (f - n) % FULL_RANGE == f - k * FULL_RANGE;
    MultipleOfRange(f, k);
  }

  lemma MultipleOfRange(f: int, k: int)
    ensures (f - k * FULL_RANGE) % ID_RANGE == f % ID_RANGE
  {
    assert f - k * FULL_RANGE == (f / ID_RANGE - k * 0x1_0000_0000) * ID_RANGE + f % ID_RANGE;
    OfUniqueInt(f - k * FULL_RANGE, f / ID_RANGE - k * 0x1_0000_0000, f % ID_RANGE);
  }

  lemma OfUniqueInt(n: int, q: int, r: int)
    requires n == q * ID_RANGE + r && 0 <= r < ID_RANGE
    ensures n % ID_RANGE == r
  {
  }
}
