/**
 Packet positions. A packet carries only the low 16 bits of its position in a
 stream; the receiver recovers the generation (the upper 32 bits) from the
 position it expects next.
 */
module PacketSequences {
  import opened Basics

  const SEQUENCE_SIZE := 65536
  const HALF_SEQUENCE_SIZE := 32768
  const MAX_GENERATION := 0xFFFF_FFFF

  /** The last position that has a 32-bit generation. */
  const MAX_KEY := 0xFFFF_FFFF_FFFF

  datatype ResolveError = AmbiguousGeneration | GenerationOverflow | InvalidPreviousGeneration

  function SequenceKey(packetId: u16, generationId: u32): (key: nat)
    ensures key <= MAX_KEY
  {
    generationId * SEQUENCE_SIZE + packetId
  }

  /** A key determines its id and generation, and every key up to the last has them. */
  lemma KeyParts(packetId: u16, generationId: u32, position: nat)
    ensures SequenceKey(packetId, generationId) == position <==>
            position <= MAX_KEY && packetId == PacketIdOf(position) && generationId == position / SEQUENCE_SIZE
  {
  }

  function PacketIdOf(position: nat): (id: u16) {
    position % SEQUENCE_SIZE
  }

  /** A stream position kept by its owner and advanced in place. */
  class PacketSequence {
    var packetId: u16
    var generationId: u32

    function Key(): nat
      reads this
    {
      SequenceKey(packetId, generationId)
    }

    constructor (packetId: u16, generationId: u32)
      ensures Key() == SequenceKey(packetId, generationId)
    {
      this.packetId, this.generationId := packetId, generationId;
    }

    /** Fails, changing nothing, at the last position. */
    method Advance() returns (ok: bool)
      modifies this
      ensures ok <==> old(Key()) < MAX_KEY
      ensures Key() == if ok then old(Key()) + 1 else old(Key())
    {
      if packetId == 0xFFFF {
        if generationId == MAX_GENERATION {
          return false;
        }
        packetId, generationId := 0, generationId + 1;
        return true;
      }
      packetId := packetId + 1;
      return true;
    }
  }

  function ResolveGeneration(expectedId: u16, expectedGeneration: u32, packetId: u16): (r: Result<u32, ResolveError>)
  {
    var forwardDistance := (packetId + SEQUENCE_SIZE - expectedId) % SEQUENCE_SIZE;
    if forwardDistance == 0 then
      Ok(expectedGeneration)
    else if forwardDistance == HALF_SEQUENCE_SIZE then
      Err(AmbiguousGeneration)
    else if forwardDistance < HALF_SEQUENCE_SIZE then
      if packetId < expectedId then
        if expectedGeneration == MAX_GENERATION then Err(GenerationOverflow) else Ok(expectedGeneration + 1)
      else
        Ok(expectedGeneration)
    else if packetId > expectedId then
      if expectedGeneration == 0 then Err(InvalidPreviousGeneration) else Ok(expectedGeneration - 1)
    else
      Ok(expectedGeneration)
  }

  /** Resolution against an expected position. */
  function ResolveAt(expected: nat, packetId: u16): (r: Result<u32, ResolveError>)
    requires expected <= MAX_KEY
  {
    ResolveGeneration(PacketIdOf(expected), expected / SEQUENCE_SIZE, packetId)
  }

  predicate WithinHalfSequence(expected: nat, position: nat) {
    -HALF_SEQUENCE_SIZE < position - expected < HALF_SEQUENCE_SIZE
  }

  /**
   A 16-bit id is resolved back to the position it came from exactly when that
   position is strictly less than half a sequence away from the expected one.
   */
  lemma ResolutionRecoversPosition(expected: nat, position: nat)
    requires expected <= MAX_KEY && position <= MAX_KEY
    ensures ResolveAt(expected, PacketIdOf(position)) == Ok(position / SEQUENCE_SIZE)
            <==> WithinHalfSequence(expected, position)
  {
  }

  /** Resolution never invents a position: what it returns is the nearest one, and it fails only when there is none. */
  lemma ResolutionIsNearest(expected: nat, packetId: u16)
    requires expected <= MAX_KEY
    ensures var r := ResolveAt(expected, packetId);
            && (r.Ok? ==> WithinHalfSequence(expected, SequenceKey(packetId, r.value)))
            && (r.Err? ==> forall generation: u32 :: !WithinHalfSequence(expected, SequenceKey(packetId, generation)))
  {
  }
}
