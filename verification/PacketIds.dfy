/**
 * Packet ids. On the wire a packet carries 16 bits; both sides extend them with a
 * 32-bit generation. `Full` is the unbounded position in the stream that the pair
 * stands for, and the lemmas tie the 16-bit code to arithmetic on positions.
 */
module PacketIds {
  import opened Prelude

  const ID_RANGE: int := 0x1_0000
  /** Number of distinct (generation, id) pairs. */
  const FULL_RANGE: int := 0x1_0000_0000_0000
  /** `u16::MAX / 2`, the length of the receive window. */
  const WINDOW: int := 32767

  datatype PartialPacketId = PartialPacketId(generation: u32, id: u16) {
    function Full(): (f: nat)
      ensures f < FULL_RANGE
    {
      generation * ID_RANGE + id
    }

    /** `Add<u16>`: the id wraps and carries into the wrapping generation. */
    function Plus(rhs: u16): PartialPacketId {
      var sum := id + rhs;
      if sum < ID_RANGE then PartialPacketId(generation, sum)
      else PartialPacketId((generation + 1) % 0x1_0000_0000, sum - ID_RANGE)
    }

    /** `Sub<u16>`. */
    function Minus(rhs: u16): PartialPacketId {
      if rhs <= id then PartialPacketId(generation, id - rhs)
      else PartialPacketId((generation - 1) % 0x1_0000_0000, id - rhs + ID_RANGE)
    }

    /** `Sub<PartialPacketId>`: a generation is counted as `u16::MAX`, not as 65536, ids. */
    function Difference(rhs: PartialPacketId): int {
      (generation - rhs.generation) * 0xffff + (id - rhs.id)
    }

    /** `Ord`: the generation first, then the id. */
    predicate Less(rhs: PartialPacketId) {
      generation < rhs.generation || (generation == rhs.generation && id < rhs.id)
    }
  }

  /** The pair that stands for position n of a stream. */
  function Of(n: nat): PartialPacketId {
    PartialPacketId(n / ID_RANGE % 0x1_0000_0000, n % ID_RANGE)
  }

  /** Pairs and positions below 2^48 are in bijection, and `Ord` is the order of positions. */
  lemma FullIsOrderIsomorphism(a: PartialPacketId, b: PartialPacketId, n: nat)
    ensures Of(a.Full()) == a
    ensures n < FULL_RANGE ==> Of(n).Full() == n
    ensures Of(n).Full() == n % FULL_RANGE
    ensures a.Less(b) <==> a.Full() < b.Full()
  {
    OfFull(n);
    OfUnique(a.Full(), a.generation, a.id);
  }

  lemma OfUnique(n: nat, q: int, r: int)
    requires n == q * ID_RANGE + r && 0 <= r < ID_RANGE
    ensures n / ID_RANGE == q && n % ID_RANGE == r
  {
  }

  lemma OfFull(n: nat)
    ensures Of(n).Full() == n % FULL_RANGE
  {
    var h := n / ID_RANGE;
    assert n == (h / 0x1_0000_0000) * FULL_RANGE + (h % 0x1_0000_0000) * ID_RANGE + n % ID_RANGE;
  }

  /** Adding and subtracting 16-bit numbers is addition of positions modulo 2^48. */
  lemma ArithmeticOnPositions(a: PartialPacketId, rhs: u16)
    ensures a.Plus(rhs).Full() == (a.Full() + rhs) % FULL_RANGE
    ensures a.Minus(rhs).Full() == (a.Full() - rhs) % FULL_RANGE
    ensures a.Plus(rhs).Minus(rhs) == a
  {
    PlusOnPositions(a, rhs);
    MinusOnPositions(a, rhs);
  }

  lemma PlusOnPositions(a: PartialPacketId, rhs: u16)
    ensures a.Plus(rhs).Full() == (a.Full() + rhs) % FULL_RANGE
  {
    if a.generation == 0xffff_ffff && a.id + rhs >= ID_RANGE {
      assert a.Full() + rhs == FULL_RANGE + (a.id + rhs - ID_RANGE);
    } else {
      assert 0 <= a.Full() + rhs < FULL_RANGE;
    }
  }

  lemma MinusOnPositions(a: PartialPacketId, rhs: u16)
    ensures a.Minus(rhs).Full() == (a.Full() - rhs) % FULL_RANGE
  {
    if a.generation == 0 && rhs > a.id {
      assert a.Full() - rhs == -FULL_RANGE + (FULL_RANGE + a.id - rhs);
    } else {
      assert 0 <= a.Full() - rhs < FULL_RANGE;
    }
  }

  lemma OfPlusOne(n: nat)
    ensures Of(n).Plus(1) == Of(n + 1)
  {
    if n % ID_RANGE == ID_RANGE - 1 {
      OfUnique(n + 1, n / ID_RANGE + 1, 0);
      assert (n / ID_RANGE + 1) % 0x1_0000_0000 == (n / ID_RANGE % 0x1_0000_0000 + 1) % 0x1_0000_0000;
    } else {
      OfUnique(n + 1, n / ID_RANGE, n % ID_RANGE + 1);
    }
  }

  /**
   * Subtracting two ids gives the distance of their positions exactly when both are of
   * one generation; otherwise it is off by the number of generations in between.
   */
  lemma DifferenceExactWithinGeneration(a: PartialPacketId, b: PartialPacketId)
    ensures a.Difference(b) == a.Full() - b.Full() <==> a.generation == b.generation
    ensures a.Difference(b) == a.Full() - b.Full() - (a.generation - b.generation)
  {
  }

  // ---------------------------------------------------------------- receive window

  datatype Window = Window(inWindow: bool, generation: u32, next: u16, limit: u16)

  /** `Connection::in_receive_window` for every packet type but `Init`. */
  function InReceiveWindow(next: PartialPacketId, id: u16): Window {
    var sum := next.id + WINDOW;
    var nextGen := sum >= ID_RANGE;
    var limit := sum % ID_RANGE;
    var inWin := (!nextGen && id >= next.id && id < limit) || (nextGen && (id >= next.id || id < limit));
    var generation :=
      if inWin then
        if nextGen && id < limit then (next.generation + 1) % 0x1_0000_0000 else next.generation
      else if id < next.id then next.generation
      else (next.generation - 1) % 0x1_0000_0000;
    Window(inWin, generation, next.id, limit)
  }

  /**
   * Generation recovery, for arbitrary positions n (expected) and f (arriving). The inferred
   * generation is the one f was numbered with exactly when f lies in [n - 32769, n + 32767)
   * modulo 2^48, and then the packet counts as inside the window exactly when f is not behind n.
   */
  lemma {:induction false} WindowRecoversPosition(n: nat, f: nat)
    ensures var w := InReceiveWindow(Of(n), f % ID_RANGE);
      (w.generation == Of(f).generation <==> (f - n + 32769) % FULL_RANGE < ID_RANGE)
      && (w.generation == Of(f).generation ==> (w.inWindow <==> (f - n) % FULL_RANGE < WINDOW))
  {
    var w := InReceiveWindow(Of(n), f % ID_RANGE);
    var q, r, qf, rf := n / ID_RANGE, n % ID_RANGE, f / ID_RANGE, f % ID_RANGE;
    var c := Carry(r, rf);
    assert w.generation == (q + c) % 0x1_0000_0000 by { ModPlus(q, c); }
    var e := c * ID_RANGE + rf - r;
    var k := qf - q - c;
    assert -32769 <= e < WINDOW && (w.inWindow <==> 0 <= e);
    assert f - n == k * ID_RANGE + e;
    SplitMod(k, e + 32769);
    EqualMod(qf, q + c);
    if k % 0x1_0000_0000 == 0 {
      if e >= 0 { SplitMod(k, e); } else { SplitMod(k - 1, e + ID_RANGE); LastBlock(k); }
    }
  }

  /** Generations between the expected position's and the inferred one. */
  function Carry(r: u16, rf: u16): int {
    if r + WINDOW < ID_RANGE then if r + WINDOW <= rf then -1 else 0
    else if rf < r + WINDOW - ID_RANGE then 1 else 0
  }

  lemma ModPlus(q: int, c: int)
    requires -1 <= c <= 1
    ensures (q + c) % 0x1_0000_0000 == (q % 0x1_0000_0000 + c) % 0x1_0000_0000
  {
  }

  lemma EqualMod(a: int, b: int)
    ensures a % 0x1_0000_0000 == b % 0x1_0000_0000 <==> (a - b) % 0x1_0000_0000 == 0
  {
  }

  lemma SplitMod(k: int, r: int)
    requires 0 <= r < ID_RANGE
    ensures (k * ID_RANGE + r) % FULL_RANGE == (k % 0x1_0000_0000) * ID_RANGE + r
  {
    assert k * ID_RANGE + r == (k / 0x1_0000_0000) * FULL_RANGE + ((k % 0x1_0000_0000) * ID_RANGE + r);
  }

  lemma LastBlock(k: int)
    requires k % 0x1_0000_0000 == 0
    ensures (k - 1) % 0x1_0000_0000 == 0xffff_ffff
  {
  }

  /** On one side of 2^48 positions the condition is plain nearness. */
  lemma {:induction false} NearPositionsAreRecovered(n: nat, f: nat)
    requires n - 32769 <= f < n + WINDOW
    ensures var w := InReceiveWindow(Of(n), f % ID_RANGE);
      PartialPacketId(w.generation, f % ID_RANGE) == Of(f) && (w.inWindow <==> n <= f)
  {
    WindowRecoversPosition(n, f);
    Residues(f - n);
  }

  lemma Residues(d: int)
    requires -32769 <= d < WINDOW
    ensures (d + 32769) % FULL_RANGE == d + 32769
    ensures d % FULL_RANGE < WINDOW <==> 0 <= d
  {
    if d < 0 { assert d == -FULL_RANGE + (FULL_RANGE + d); }
  }

  // ---------------------------------------------------------------- unordered streams

  /**
   * Acks and voice packets are accepted in any order: each accepted arrival moves the
   * expected id to just behind itself, forwards or backwards.
   */
  function AfterArrival(next: PartialPacketId, id: u16): PartialPacketId {
    var generation := InReceiveWindow(next, id).generation;
    if id + 1 == ID_RANGE then PartialPacketId((generation + 1) % 0x1_0000_0000, 0)
    else PartialPacketId(generation, id + 1)
  }

  /** The generations inferred for a run of arriving 16-bit ids. */
  function InferredGenerations(next: PartialPacketId, ids: seq<u16>): (gs: seq<u32>)
    ensures |gs| == |ids|
    decreases |ids|
  {
    if ids == [] then []
    else [InReceiveWindow(next, ids[0]).generation] + InferredGenerations(AfterArrival(next, ids[0]), ids[1..])
  }

  /** Every arrival is close enough to the one before it (to n for the first). */
  predicate NearbyArrivals(n: nat, arrivals: seq<nat>)
    decreases |arrivals|
  {
    arrivals != [] ==>
      n - 32769 <= arrivals[0] < n + WINDOW && NearbyArrivals(arrivals[0] + 1, arrivals[1..])
  }

  function WireIds(arrivals: seq<nat>): (ids: seq<u16>)
    ensures |ids| == |arrivals| && forall i :: 0 <= i < |ids| ==> ids[i] == arrivals[i] % ID_RANGE
  {
    if arrivals == [] then [] else [arrivals[0] % ID_RANGE] + WireIds(arrivals[1..])
  }

  /** Over whole runs every packet is decrypted under the generation it was sent with. */
  lemma {:induction false} GenerationsRecoveredOverRuns(n: nat, arrivals: seq<nat>)
    requires NearbyArrivals(n, arrivals)
    ensures forall i :: 0 <= i < |arrivals| ==>
      InferredGenerations(Of(n), WireIds(arrivals))[i] == Of(arrivals[i]).generation
    decreases |arrivals|
  {
    if arrivals == [] {
    } else {
      var f := arrivals[0];
      NearPositionsAreRecovered(n, f);
      OfPlusOne(f);
      assert AfterArrival(Of(n), f % ID_RANGE) == Of(f + 1);
      assert WireIds(arrivals)[1..] == WireIds(arrivals[1..]);
      GenerationsRecoveredOverRuns(f + 1, arrivals[1..]);
    }
  }
}
