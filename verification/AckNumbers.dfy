/**
 * Acks are packets with ids of their own, and they are encrypted under the generation of these ids.
 * The side that reads them infers the generation from the last ack that it has read; an ack for which
 * the guess is wrong is dropped.
 */
module AckNumbers {
  import opened Prelude
  import opened PacketIds

  datatype Acks = Acks(
    first: nat,             // the position of the first ack of the run
    sent: seq<u16>,         // for each ack that was sent, the id of the packet that it acks
    next: PartialPacketId,  // the expected id on the side that reads them
    heard: nat,             // the position that this id stands for
    ignoresOne: bool)       // a client reads them, and they are acks of type `Ack`
  {
    /** The position of the next ack that is sent. */
    function Number(): nat {
      first + |sent|
    }

    function Sending(id: u16): Acks {
      this.(sent := sent + [id])
    }

    /** A client takes any ack with the id 1 for that of its first command and drops it. */
    predicate Ignores(f: nat) {
      ignoresOne && f % ID_RANGE == 1
    }

    /** The ack at position f is decrypted. */
    predicate Reads(f: nat) {
      !Ignores(f) && InReceiveWindow(next, f % ID_RANGE).generation == Of(f).generation
    }

    function Reading(f: nat): Acks {
      this.(next := AfterArrival(next, f % ID_RANGE), heard := f + 1)
    }

    /** Both sides count alike, and nothing was read that was not sent. */
    predicate Counted() {
      next == Of(heard) && heard <= Number()
    }

    /** No ack of the run was sent yet. */
    predicate Fresh() {
      sent == [] && Counted()
    }

    /** The next ack that is sent is in reach: its generation would be guessed right. */
    predicate InReach() {
      Number() < heard + WINDOW
    }

    /** One of the next acks that are sent would be read. */
    predicate CanHear() {
      Number() + (if Ignores(Number()) then 1 else 0) < heard + WINDOW
    }

    /** Less than a whole round of generations is between what was sent and what was read. */
    predicate WithinRounds() {
      Number() < heard + FULL_RANGE - 32769
    }
  }

  /** For all positions: the condition under which an ack is read, modulo 2^48. */
  lemma ReadsIff(a: Acks, f: nat)
    requires a.Counted()
    ensures a.Reads(f) <==>
            (a.ignoresOne ==> f % 0x1_0000 != 1) && (f - a.heard + 32769) % FULL_RANGE < ID_RANGE
  {
    WindowRecoversPosition(a.heard, f);
  }

  /** Of the acks that are not behind: exactly those that are less than 32767 ahead of the expected one. */
  lemma ReadsAheadIff(a: Acks, f: nat)
    requires a.Counted() && a.heard <= f < a.heard + FULL_RANGE - 32769
    ensures a.Reads(f) <==> !a.Ignores(f) && f < a.heard + WINDOW
  {
    ReadsIff(a, f);
  }

  /** Of those behind: exactly those that are at most 32769 behind, and then the expected id moves back. */
  lemma ReadsBehindIff(a: Acks, f: nat)
    requires a.Counted() && f < a.heard <= f + FULL_RANGE - 32769
    ensures a.Reads(f) <==> !a.Ignores(f) && a.heard <= f + 32769
    ensures a.Reading(f).heard <= a.heard
  {
    ReadsIff(a, f);
    if a.heard > f + 32769 {
      assert (f - a.heard + 32769) % FULL_RANGE == f - a.heard + 32769 + FULL_RANGE;
    }
  }

  lemma SendingKeeps(a: Acks, id: u16)
    requires a.Counted()
    ensures a.Sending(id).Counted() && a.Sending(id).Number() == a.Number() + 1
  {
  }

  /** What was read sets the expected id behind itself. */
  lemma ReadingKeeps(a: Acks, f: nat)
    requires a.Counted() && a.Reads(f) && f < a.Number()
    ensures a.Reading(f).Counted()
  {
    OfPlusOne(f);
  }

  /** When all acks were read up to now, an old one that comes again can put the next one out of reach. */
  lemma LateAckIff(a: Acks, f: nat)
    requires a.Counted() && a.heard == a.Number() && f < a.Number() <= FULL_RANGE - 32769
    ensures a.InReach()
    ensures a.Reads(f) && !a.Reading(f).InReach() <==>
            !a.Ignores(f) && a.Number() - 32769 <= f <= a.Number() - 32768
  {
    ReadsBehindIff(a, f);
  }

  /** The ids that a connection keeps for the acks of one command type. */
  class AckCodec {
    const ignoresOne: bool
    var outgoing: PartialPacketId
    var incoming: PartialPacketId

    constructor (ignoresOne: bool, outgoing: PartialPacketId, incoming: PartialPacketId)
      ensures this.ignoresOne == ignoresOne && this.outgoing == outgoing && this.incoming == incoming
    {
      this.ignoresOne, this.outgoing, this.incoming := ignoresOne, outgoing, incoming;
    }

    /** An ack is sent: with n the position of the next id, it gets the id and the encryption of position n. */
    method Encode() returns (id: PartialPacketId)
      modifies this`outgoing
      ensures id == Of(old(outgoing).Full()) && outgoing == Of(old(outgoing).Full() + 1)
    {
      id := outgoing;
      FullIsOrderIsomorphism(id, id, 0);
      OfPlusOne(id.Full());
      outgoing := outgoing.Plus(1);
    }

    /** An ack arrives: whether it is read, and the id that is expected then. */
    method Handle(id: PartialPacketId, ghost a: Acks) returns (read: bool)
      requires incoming == a.next && ignoresOne == a.ignoresOne
      modifies this`incoming
      ensures read <==> a.Reads(id.Full())
      ensures incoming == if read then a.Reading(id.Full()).next else old(incoming)
    {
      FullIsOrderIsomorphism(id, id, 0);
      IdOfFull(id);
      var generation: int := InReceiveWindow(incoming, id.id).generation;
      if ignoresOne && id.id == 1 {
        return false;
      }
      if generation != id.generation {
        return false;
      }
      if id.id + 1 == ID_RANGE {
        incoming := PartialPacketId((generation + 1) % 0x1_0000_0000, 0);
      } else {
        incoming := PartialPacketId(generation, id.id + 1);
      }
      return true;
    }
  }

  lemma IdOfFull(id: PartialPacketId)
    ensures id.Full() % ID_RANGE == id.id
  {
    OfUnique(id.Full(), id.generation, id.id);
  }
}
