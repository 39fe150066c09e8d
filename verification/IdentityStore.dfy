/** Identities and their security levels. */
module IdentityStores {
  import opened Basics
  import opened HashCash

  const MAX_SECURITY_LEVEL: u8 := 32

  datatype Error = LevelTooLarge | LevelNotHigher | NoOffset

  /** The part of an identity that raising its level changes; the key is represented by its digests. */
  class LocalIdentity {
    const digests: Digests
    var securityLevel: u8
    var keyOffset: nat

    ghost predicate Valid()
      reads this
    {
      keyOffset <= MAX_OFFSET
    }

    /** The offset is the smallest of all that reach the level. */
    ghost predicate Smallest()
      reads this
    {
      IsFirst(digests, securityLevel, 0, keyOffset)
    }

    constructor (digests: Digests, securityLevel: u8, keyOffset: nat)
      ensures this.digests == digests && this.securityLevel == securityLevel && this.keyOffset == keyOffset
    {
      this.digests, this.securityLevel, this.keyOffset := digests, securityLevel, keyOffset;
    }
  }

  function Never(): nat -> bool {
    _ => false
  }

  /** A new identity has the smallest offset of its level; it fails exactly if the level is too large or no offset reaches it. */
  method Create(digests: Digests, securityLevel: u8) returns (r: Result<LocalIdentity, Error>)
    ensures r.Ok? ==> fresh(r.value) && r.value.digests == digests && r.value.securityLevel == securityLevel
                      && r.value.Valid() && r.value.Smallest()
    ensures r == Err(LevelTooLarge) <==> securityLevel > MAX_SECURITY_LEVEL
    ensures r == Err(NoOffset) <==> securityLevel <= MAX_SECURITY_LEVEL && NoneIn(digests, securityLevel, 0, MAX_OFFSET + 1)
    ensures r != Err(LevelNotHigher)
  {
    if securityLevel > MAX_SECURITY_LEVEL {
      return Err(LevelTooLarge);
    }
    var search := FindOffset(digests, securityLevel, 0, Never());
    if search.Found? {
      var identity := new LocalIdentity(digests, securityLevel, search.offset);
      return Ok(identity);
    }
    return Err(NoOffset);
  }

  /**
   Raise the level in place. A completed raise of an identity with the smallest
   offset leaves it with the smallest offset of the higher level; an interrupted
   or refused one leaves it unchanged.
   */
  method IncreaseSecurityLevel(identity: LocalIdentity, targetLevel: u8, stop: nat -> bool) returns (r: Result<bool, Error>)
    requires identity.Valid()
    modifies identity
    ensures identity.Valid()
    ensures r == Ok(true) ==> identity.securityLevel == targetLevel > old(identity.securityLevel)
                              && IsFirst(identity.digests, targetLevel, old(identity.keyOffset), identity.keyOffset)
    ensures r == Ok(true) && old(identity.Smallest()) ==> identity.Smallest()
    ensures r != Ok(true) ==> unchanged(identity)
    ensures r == Ok(false) ==> StopsIn(stop, identity.keyOffset, MAX_OFFSET)
    ensures r == Err(LevelNotHigher) <==> targetLevel <= old(identity.securityLevel)
    ensures r == Err(LevelTooLarge) <==> targetLevel > old(identity.securityLevel) && targetLevel > MAX_SECURITY_LEVEL
    ensures r == Err(NoOffset) ==> NoneIn(identity.digests, targetLevel, identity.keyOffset, MAX_OFFSET + 1)
  {
    if targetLevel <= identity.securityLevel {
      return Err(LevelNotHigher);
    }
    if targetLevel > MAX_SECURITY_LEVEL {
      return Err(LevelTooLarge);
    }
    var search := FindOffset(identity.digests, targetLevel, identity.keyOffset, stop);
    match search
    case Stopped =>
      return Ok(false);
    case Exhausted =>
      return Err(NoOffset);
    case Found(offset) =>
      if IsFirst(identity.digests, identity.securityLevel, 0, identity.keyOffset) {
        ResumingIsSearching(identity.digests, identity.securityLevel, identity.keyOffset, targetLevel, offset);
      }
      identity.securityLevel := targetLevel;
      identity.keyOffset := offset;
      return Ok(true);
  }

  /** A level and the offset found for it. */
  datatype Raised = Raised(level: nat, offset: nat)

  /** The levels an identity goes through by creating it and by completed raises. */
  ghost predicate Raises(digests: Digests, history: seq<Raised>) {
    && history != [] && IsFirst(digests, history[0].level, 0, history[0].offset)
    && forall i :: 1 <= i < |history| ==> Raise(digests, history[i - 1], history[i])
  }

  ghost predicate Raise(digests: Digests, from: Raised, to: Raised) {
    from.level < to.level && IsFirst(digests, to.level, from.offset, to.offset)
  }

  /** However it got there, an identity ends up with the offset one search from zero finds for its level. */
  lemma {:induction false} EveryRaiseIsOneSearch(digests: Digests, history: seq<Raised>, single: nat)
    requires Raises(digests, history) && IsFirst(digests, history[|history| - 1].level, 0, single)
    ensures history[|history| - 1].offset == single
  {
    EveryRaiseIsSmallest(digests, history);
    var last := history[|history| - 1];
  }

  lemma {:induction false} EveryRaiseIsSmallest(digests: Digests, history: seq<Raised>)
    requires Raises(digests, history)
    ensures IsFirst(digests, history[|history| - 1].level, 0, history[|history| - 1].offset)
  {
    var n := |history| - 1;
    if n > 0 {
      var earlier := history[..n];
      assert forall i :: 0 <= i < |earlier| ==> earlier[i] == history[i];
      EveryRaiseIsSmallest(digests, earlier);
      assert Raise(digests, history[n - 1], history[n]);
      ResumingIsSearching(digests, history[n - 1].level, history[n - 1].offset, history[n].level, history[n].offset);
    }
  }

  /** A raise that is not stopped completes exactly if any offset at all reaches the higher level. */
  lemma RaiseCanComplete(digests: Digests, from: Raised, level: nat)
    requires IsFirst(digests, from.level, 0, from.offset) && from.level < level
    ensures (exists offset: nat :: Raise(digests, from, Raised(level, offset))) <==> !NoneIn(digests, level, 0, MAX_OFFSET + 1)
  {
    if some: nat :| 0 <= some < MAX_OFFSET + 1 && Reaches(digests, level, some) {
      assert some < from.offset ==> !Reaches(digests, from.level, some);
      var offset := FirstExists(digests, level, from.offset, some);
      assert Raise(digests, from, Raised(level, offset));
    } else {
      assert forall offset: nat :: Raise(digests, from, Raised(level, offset)) ==> Reaches(digests, level, offset);
    }
  }
}
