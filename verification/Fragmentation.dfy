/**
 * Commands are compressed, cut into packets of at most 500 bytes and put together again
 * on the other side. QuickLZ is an oracle that undoes itself up to a size limit.
 */
module Fragmentation {
  import opened Prelude

  /** Including the header. */
  const MAX_PACKET_SIZE: nat := 500
  const MAX_FRAGMENTS_LENGTH: nat := 40960
  const MAX_DECOMPRESSED_SIZE: nat := 2 * 1024 * 1024

  datatype Direction = S2C | C2S

  function HeaderLen(dir: Direction): nat {
    if dir == S2C then 11 else 13
  }

  /** Content bytes that fit into one packet. */
  function MaxContent(dir: Direction): nat {
    MAX_PACKET_SIZE - HeaderLen(dir)
  }

  datatype Flags = Flags(unencrypted: bool, compressed: bool, newProtocol: bool, fragmented: bool)

  /** A `Command` or `CommandLow` packet; ids and encryption live in the modules above. */
  datatype Packet = Packet(dir: Direction, flags: Flags, content: seq<u8>) {
    function Length(): nat {
      HeaderLen(dir) + |content|
    }

    /** As the caller hands it over: neither compressed nor fragmented yet. */
    predicate Plain() {
      !flags.compressed && !flags.fragmented
    }
  }

  datatype Codec = Codec(compress: seq<u8> -> seq<u8>, decompress: seq<u8> -> Option<seq<u8>>)

  /** Decompression undoes compression and refuses results over 2 MiB. */
  ghost predicate Lawful(codec: Codec) {
    forall x: seq<u8> :: codec.decompress(codec.compress(x)) ==
                         if |x| <= MAX_DECOMPRESSED_SIZE then Some(x) else None
  }

  // ---------------------------------------------------------------- sending

  function Chunks(data: seq<u8>, size: nat): (chunks: seq<seq<u8>>)
    requires size > 0
    ensures |chunks| >= 1
    decreases |data|
  {
    if |data| <= size then [data] else [data[..size]] + Chunks(data[size..], size)
  }

  function Concat(chunks: seq<seq<u8>>): seq<u8> {
    if chunks == [] then [] else chunks[0] + Concat(chunks[1..])
  }

  /** The header of one fragment; only the first and the last are marked. */
  function Labelled(packet: Packet, compressed: bool, count: nat, i: nat, data: seq<u8>): Packet {
    var first := packet.flags.(compressed := packet.flags.compressed || (i == 0 && compressed));
    Packet(packet.dir,
           first.(fragmented := first.fragmented || (count > 1 && (i == 0 || i + 1 == count))),
           data)
  }

  /** Whether the compressed form of an over-long content is the one that is sent. */
  predicate SentCompressed(codec: Codec, packet: Packet) {
    |packet.content| > MaxContent(packet.dir) && |codec.compress(packet.content)| <= |packet.content|
  }

  function Payload(codec: Codec, packet: Packet): seq<u8> {
    if SentCompressed(codec, packet) then codec.compress(packet.content) else packet.content
  }

  /** What `compress_and_split` returns. */
  function Split(codec: Codec, packet: Packet): seq<Packet> {
    if |packet.content| <= MaxContent(packet.dir) then [packet]
    else
      var chunks := Chunks(Payload(codec, packet), MaxContent(packet.dir));
      seq(|chunks|, i requires 0 <= i < |chunks| =>
        Labelled(packet, SentCompressed(codec, packet), |chunks|, i, chunks[i]))
  }

  method CompressAndSplit(codec: Codec, packet: Packet) returns (packets: seq<Packet>)
    ensures packets == Split(codec, packet)
  {
    hide Labelled;
    var maxSize := MAX_PACKET_SIZE - HeaderLen(packet.dir);
    var data := packet.content;
    if |data| <= maxSize {
      return [packet];
    }
    var compressed := false;
    var cdata := codec.compress(data);
    if |cdata| <= |data| {
      compressed := true;
      data := cdata;
    }
    ghost var chunks := Chunks(data, maxSize);
    var datas := [];
    while |data| > maxSize
      invariant datas + Chunks(data, maxSize) == chunks
      decreases |data|
    {
      assert Chunks(data, maxSize) == [data[..maxSize]] + Chunks(data[maxSize..], maxSize);
      datas := datas + [data[..maxSize]];
      data := data[maxSize..];
    }
    datas := datas + [data];
    assert datas == chunks;

    packets := [];
    for i := 0 to |datas|
      invariant packets == Split(codec, packet)[..i]
    {
      packets := packets + [Labelled(packet, compressed, |datas|, i, datas[i])];
    }
  }

  lemma {:induction false} ChunksPartition(data: seq<u8>, size: nat)
    requires size > 0
    ensures var chunks := Chunks(data, size);
      Concat(chunks) == data
      && (forall i :: 0 <= i < |chunks| - 1 ==> |chunks[i]| == size)
      && |chunks[|chunks| - 1]| <= size
      && (|chunks| > 1 ==> (|chunks| - 1) * size < |data| <= |chunks| * size)
    decreases |data|
  {
    if |data| <= size {
      assert Concat([data]) == data;
    } else {
      ChunksPartition(data[size..], size);
      var chunks, rest := Chunks(data, size), Chunks(data[size..], size);
      assert chunks == [data[..size]] + rest && chunks[1..] == rest;
      assert |chunks| * size == |rest| * size + size;
      assert (|chunks| - 1) * size == (|rest| - 1) * size + size;
      assert data == data[..size] + data[size..];
    }
  }

  /** Every packet fits into 500 bytes; exactly the outer two of several fragments are marked. */
  lemma SplitShape(codec: Codec, packet: Packet)
    requires packet.Plain()
    ensures var ps := Split(codec, packet);
      |ps| >= 1
      && (forall i :: 0 <= i < |ps| ==> ps[i].Length() <= MAX_PACKET_SIZE && ps[i].dir == packet.dir)
      && (forall i :: 0 <= i < |ps| ==>
            (ps[i].flags.fragmented <==> |ps| > 1 && (i == 0 || i == |ps| - 1)))
      && (forall i :: 0 <= i < |ps| ==>
            (ps[i].flags.compressed <==> i == 0 && SentCompressed(codec, packet)))
      && Concat(Contents(ps)) == Payload(codec, packet)
  {
    if |packet.content| <= MaxContent(packet.dir) {
      assert Contents([packet]) == [packet.content];
      assert Concat([packet.content]) == packet.content;
    } else {
      var chunks := Chunks(Payload(codec, packet), MaxContent(packet.dir));
      ChunksPartition(Payload(codec, packet), MaxContent(packet.dir));
      assert Contents(Split(codec, packet)) == chunks;
    }
  }

  /** All packets bear the other flags of the command. */
  lemma SplitFlags(codec: Codec, packet: Packet)
    ensures forall i {:trigger Split(codec, packet)[i]} :: 0 <= i < |Split(codec, packet)| ==>
              Split(codec, packet)[i].flags.unencrypted == packet.flags.unencrypted
              && Split(codec, packet)[i].flags.newProtocol == packet.flags.newProtocol
  {
  }

  /**
   * Of a long command the shorter form is sent, and the compressed one if both are equally long. Exactly this
   * form is marked as compressed, in its first packet.
   */
  lemma ShorterFormIsSent(codec: Codec, packet: Packet)
    requires packet.Plain()
    ensures var ps, data := Split(codec, packet), Concat(Contents(Split(codec, packet)));
      var plain, cdata := packet.content, codec.compress(packet.content);
      && (|plain| <= MAX_PACKET_SIZE - HeaderLen(packet.dir) ==> ps == [packet])
      && (|plain| > MAX_PACKET_SIZE - HeaderLen(packet.dir) ==>
            && |data| == Min(|plain|, |cdata|)
            && (|cdata| <= |plain| ==> data == cdata && ps[0].flags.compressed)
            && (|plain| < |cdata| ==> data == plain && !ps[0].flags.compressed))
      && forall i {:trigger ps[i]} :: 0 < i < |ps| ==> !ps[i].flags.compressed
  {
    hide Labelled;
    SplitShape(codec, packet);
  }

  lemma {:induction false} MoreChunks(a: seq<u8>, b: seq<u8>, size: nat)
    requires size > 0 && |a| <= |b|
    ensures |Chunks(a, size)| <= |Chunks(b, size)|
    decreases |a|
  {
    if |a| > size {
      MoreChunks(a[size..], b[size..], size);
    }
  }

  /** Compression never makes a command undeliverable, up to the limit of decompression. */
  lemma CompressionKeepsDeliverable(codec: Codec, packet: Packet)
    requires |packet.content| <= MAX_DECOMPRESSED_SIZE
    requires |Chunks(packet.content, MaxContent(packet.dir))| <= if packet.dir == C2S then 86 else 85
    ensures Deliverable(codec, packet)
  {
    MoreChunks(Payload(codec, packet), packet.content, MaxContent(packet.dir));
    FragmentLimit(codec, packet);
  }

  function Contents(ps: seq<Packet>): seq<seq<u8>> {
    seq(|ps|, i requires 0 <= i < |ps| => ps[i].content)
  }

  // ---------------------------------------------------------------- receiving

  datatype Absorbed =
    | Absorbed(pending: Option<Packet>, released: Option<Packet>)
    | DecompressFailed(pending: Option<Packet>)
    | FragmentQueueFull(pending: Option<Packet>)

  /** One in-order packet meets the fragments collected so far. */
  function Absorb(codec: Codec, pending: Option<Packet>, packet: Packet): Absorbed {
    if packet.flags.fragmented then
      if pending.Some? then
        // The last fragment; the flags of the first decide about decompression.
        var whole := pending.value.(content := pending.value.content + packet.content);
        if whole.flags.compressed then Decompressed(codec, whole) else Absorbed(None, Some(whole))
      else
        Absorbed(Some(packet), None)
    else if pending.Some? then
      if pending.value.Length() < MAX_FRAGMENTS_LENGTH then
        Absorbed(Some(pending.value.(content := pending.value.content + packet.content)), None)
      else
        FragmentQueueFull(pending)
    else if packet.flags.compressed then Decompressed(codec, packet)
    else Absorbed(None, Some(packet))
  }

  function Decompressed(codec: Codec, whole: Packet): Absorbed {
    match codec.decompress(whole.content)
    case Some(content) => Absorbed(None, Some(whole.(content := content)))
    case None => DecompressFailed(None)
  }

  /** The state after a run of in-order packets: it stops at the first error. */
  datatype Assembly = Assembly(pending: Option<Packet>, released: seq<Packet>, failed: bool)

  const NOTHING := Assembly(None, [], false)

  function AbsorbStep(codec: Codec, s: Assembly, packet: Packet): Assembly {
    if s.failed then s
    else match Absorb(codec, s.pending, packet)
      case Absorbed(pending, None) => Assembly(pending, s.released, false)
      case Absorbed(pending, Some(p)) => Assembly(pending, s.released + [p], false)
      case DecompressFailed(pending) => Assembly(pending, s.released, true)
      case FragmentQueueFull(pending) => Assembly(pending, s.released, true)
  }

  function Assemble(codec: Codec, s: Assembly, packets: seq<Packet>): Assembly
    decreases |packets|
  {
    if packets == [] then s
    else Assemble(codec, AbsorbStep(codec, s, packets[0]), packets[1..])
  }

  lemma {:induction false} AssembleConcat(codec: Codec, s: Assembly, a: seq<Packet>, b: seq<Packet>)
    ensures Assemble(codec, s, a + b) == Assemble(codec, Assemble(codec, s, a), b)
    decreases |a|
  {
    if a == [] {
      assert a + b == b;
    } else {
      assert (a + b)[1..] == a[1..] + b;
      AssembleConcat(codec, AbsorbStep(codec, s, a[0]), a[1..], b);
    }
  }

  /** Released packets are never taken back. */
  lemma {:induction false} AssembleExtends(codec: Codec, s: Assembly, packets: seq<Packet>)
    ensures s.released <= Assemble(codec, s, packets).released
    ensures s.failed ==> Assemble(codec, s, packets) == s
    decreases |packets|
  {
    if packets != [] {
      AssembleExtends(codec, AbsorbStep(codec, s, packets[0]), packets[1..]);
    }
  }

  /** Unmarked packets after a first fragment are appended as long as the limit allows. */
  lemma {:induction false} AssembleMiddle(codec: Codec, s: Assembly, middle: seq<Packet>)
    requires !s.failed && s.pending.Some?
    requires forall i :: 0 <= i < |middle| ==>
      !middle[i].flags.fragmented && |middle[i].content| == MaxContent(s.pending.value.dir)
    ensures var q := s.pending.value; var size := MaxContent(q.dir);
      if |middle| == 0 || q.Length() + size * (|middle| - 1) < MAX_FRAGMENTS_LENGTH then
        Assemble(codec, s, middle) ==
          s.(pending := Some(q.(content := q.content + Concat(Contents(middle)))))
      else Assemble(codec, s, middle).failed && Assemble(codec, s, middle).released == s.released
    decreases |middle|
  {
    var q := s.pending.value;
    if middle == [] {
      assert q.content + Concat([]) == q.content;
      assert Contents(middle) == [];
    } else {
      var s' := AbsorbStep(codec, s, middle[0]);
      if s'.failed {
        AssembleExtends(codec, s', middle[1..]);
      } else {
        AssembleMiddle(codec, s', middle[1..]);
        assert Contents(middle)[1..] == Contents(middle[1..]);
        assert q.content + Concat(Contents(middle)) ==
               q.content + middle[0].content + Concat(Contents(middle[1..]));
      }
    }
  }

  /**
   * Can the receiver put this command together again? The sender can tell beforehand: from
   * the number of fragments, and from the size when it compresses.
   */
  predicate Deliverable(codec: Codec, packet: Packet) {
    var n := |Split(codec, packet)|;
    (n <= 2 || HeaderLen(packet.dir) + MaxContent(packet.dir) * (n - 2) < MAX_FRAGMENTS_LENGTH)
    && (SentCompressed(codec, packet) ==> |packet.content| <= MAX_DECOMPRESSED_SIZE)
  }

  /** The limit in fragments: 86 towards the server, 85 towards the client. */
  lemma FragmentLimit(codec: Codec, packet: Packet)
    ensures |packet.content| <= MAX_DECOMPRESSED_SIZE ==>
      (Deliverable(codec, packet) <==>
        |Split(codec, packet)| <= if packet.dir == C2S then 86 else 85)
  {
  }

  /** r is s with one more released packet, which has the content and the header of the given one. */
  predicate ReleasedOne(s: Assembly, r: Assembly, packet: Packet) {
    !r.failed && r.pending == None && |r.released| == |s.released| + 1
    && r.released[..|s.released|] == s.released
    && var p := r.released[|s.released|];
       p.content == packet.content && p.dir == packet.dir
       && p.flags.unencrypted == packet.flags.unencrypted && p.flags.newProtocol == packet.flags.newProtocol
  }

  predicate ReleasedNothing(s: Assembly, r: Assembly) {
    r.failed && r.released == s.released
  }

  /**
   * A command goes through the receiver unchanged exactly when it is deliverable; otherwise
   * the receiver fails on it and releases nothing.
   */
  lemma {:induction false} CommandRoundTrip(codec: Codec, s: Assembly, packet: Packet)
    requires Lawful(codec) && packet.Plain()
    requires s.pending == None && !s.failed
    ensures var r := Assemble(codec, s, Split(codec, packet));
      if Deliverable(codec, packet) then ReleasedOne(s, r, packet) else ReleasedNothing(s, r)
  {
    var ps := Split(codec, packet);
    SplitShape(codec, packet);
    SplitFlags(codec, packet);
    if |ps| == 1 {
      assert Contents(ps) == [ps[0].content];
      assert ps[0].content == Payload(codec, packet) by { assert Concat([ps[0].content]) == ps[0].content + []; }
      AssembleOne(codec, s, ps[0]);
      assert ps == [ps[0]];
      PayloadDecoded(codec, s, AbsorbStep(codec, s, ps[0]), ps[0], packet);
    } else {
      SplitSizes(codec, packet);
      var whole := ps[0].(content := Payload(codec, packet));
      AssembleFragments(codec, s, ps, MaxContent(packet.dir), Payload(codec, packet));
      if HeaderLen(packet.dir) + MaxContent(packet.dir) * (|ps| - 2) < MAX_FRAGMENTS_LENGTH || |ps| == 2 {
        PayloadDecoded(codec, s, Assemble(codec, s, ps), whole, packet);
      }
    }
  }

  lemma AssembleOne(codec: Codec, s: Assembly, p: Packet)
    ensures Assemble(codec, s, [p]) == AbsorbStep(codec, s, p)
  {
    assert Assemble(codec, AbsorbStep(codec, s, p), []) == AbsorbStep(codec, s, p);
  }

  lemma SplitSizes(codec: Codec, packet: Packet)
    ensures var ps := Split(codec, packet);
      |ps| > 1 ==> forall i :: 0 <= i < |ps| - 1 ==> |ps[i].content| == MaxContent(packet.dir)
  {
    ChunksPartition(Payload(codec, packet), MaxContent(packet.dir));
  }

  /** The state after the last fragment: the joined content is released, decompressed if need be. */
  function Finish(codec: Codec, s: Assembly, whole: Packet): Assembly {
    if !whole.flags.compressed then Assembly(None, s.released + [whole], false)
    else match codec.decompress(whole.content)
      case Some(content) => Assembly(None, s.released + [whole.(content := content)], false)
      case None => Assembly(None, s.released, true)
  }

  lemma PayloadDecoded(codec: Codec, s: Assembly, r: Assembly, whole: Packet, packet: Packet)
    requires Lawful(codec)
    requires whole.content == Payload(codec, packet) && whole.dir == packet.dir
    requires whole.flags.unencrypted == packet.flags.unencrypted && whole.flags.newProtocol == packet.flags.newProtocol
    requires whole.flags.compressed <==> SentCompressed(codec, packet)
    requires r == Finish(codec, s, whole)
    ensures if SentCompressed(codec, packet) && |packet.content| > MAX_DECOMPRESSED_SIZE
            then ReleasedNothing(s, r) else ReleasedOne(s, r, packet)
  {
  }

  lemma {:induction false} AssembleFragments(codec: Codec, s: Assembly, ps: seq<Packet>, size: nat, payload: seq<u8>)
    requires s.pending == None && !s.failed && |ps| >= 2
    requires forall i :: 0 <= i < |ps| ==> (ps[i].flags.fragmented <==> i == 0 || i == |ps| - 1)
    requires forall i :: 0 <= i < |ps| - 1 ==> |ps[i].content| == size
    requires size == MaxContent(ps[0].dir) && Concat(Contents(ps)) == payload
    ensures var r := Assemble(codec, s, ps);
      if |ps| == 2 || HeaderLen(ps[0].dir) + size * (|ps| - 2) < MAX_FRAGMENTS_LENGTH
      then r == Finish(codec, s, ps[0].(content := payload))
      else ReleasedNothing(s, r)
  {
    var n := |ps|;
    var middle, last := ps[1..n - 1], ps[n - 1];
    var s1 := s.(pending := Some(ps[0]));
    var s2 := Assemble(codec, s1, middle);
    assert Assemble(codec, s, ps) == AbsorbStep(codec, s2, last) by {
      assert AbsorbStep(codec, s, ps[0]) == s1;
      assert ps[1..] == middle + [last];
      AssembleConcat(codec, s1, middle, [last]);
      AssembleOne(codec, s2, last);
    }
    AssembleMiddle(codec, s1, middle);
    ContentsOfThree(ps);
    assert size + size * (|middle| - 1) == size * (n - 2);
  }

  lemma ContentsOfThree(ps: seq<Packet>)
    requires |ps| >= 2
    ensures var n := |ps|;
      ps[0].content + Concat(Contents(ps[1..n - 1])) + ps[n - 1].content == Concat(Contents(ps))
  {
    var n := |ps|;
    var cs := Contents(ps);
    assert cs[1..] == Contents(ps[1..n - 1]) + [ps[n - 1].content];
    ConcatSnoc(Contents(ps[1..n - 1]), ps[n - 1].content);
  }

  lemma {:induction false} ConcatSnoc(cs: seq<seq<u8>>, c: seq<u8>)
    ensures Concat(cs + [c]) == Concat(cs) + c
  {
    if cs == [] {
      assert Concat([c]) == c + Concat([]);
    } else {
      assert (cs + [c])[1..] == cs[1..] + [c];
      ConcatSnoc(cs[1..], c);
    }
  }

  // ---------------------------------------------------------------- streams of commands

  function SplitAll(codec: Codec, commands: seq<Packet>): seq<Packet> {
    if commands == [] then []
    else SplitAll(codec, commands[..|commands| - 1]) + Split(codec, commands[|commands| - 1])
  }

  ghost predicate Sendable(codec: Codec, commands: seq<Packet>) {
    forall i :: 0 <= i < |commands| ==> commands[i].Plain() && Deliverable(codec, commands[i])
  }

  /** The fragments of any list of commands, fed in order, give back the same contents. */
  lemma {:induction false} StreamRoundTrip(codec: Codec, commands: seq<Packet>)
    requires Lawful(codec) && Sendable(codec, commands)
    ensures var r := Assemble(codec, NOTHING, SplitAll(codec, commands));
      !r.failed && r.pending == None && Contents(r.released) == Contents(commands)
  {
    hide Split, Deliverable, Lawful;
    if commands == [] {
    } else {
      var k := |commands| - 1;
      var front := commands[..k];
      assert Sendable(codec, front);
      StreamRoundTrip(codec, front);
      var s := Assemble(codec, NOTHING, SplitAll(codec, front));
      var r := Assemble(codec, s, Split(codec, commands[k]));
      assert ReleasedOne(s, r, commands[k]) by {
        CommandRoundTrip(codec, s, commands[k]);
      }
      assert Assemble(codec, NOTHING, SplitAll(codec, commands)) == r by {
        assert SplitAll(codec, commands) == SplitAll(codec, front) + Split(codec, commands[k]);
        AssembleConcat(codec, NOTHING, SplitAll(codec, front), Split(codec, commands[k]));
      }
      ContentsSnoc(s.released, r.released);
      ContentsSnoc(front, commands);
    }
  }

  lemma ContentsSnoc(front: seq<Packet>, all: seq<Packet>)
    requires |all| == |front| + 1 && all[..|front|] == front
    ensures Contents(all) == Contents(front) + [all[|front|].content]
  {
    forall i | 0 <= i < |front|
      ensures all[i] == front[i]
    {
      assert all[..|front|][i] == front[i];
    }
  }
}
