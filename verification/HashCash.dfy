/** The proof of work behind an identity's security level: a search that can be resumed. */
module HashCash {
  import opened Basics

  const MAX_OFFSET := 0xFFFF_FFFF_FFFF_FFFF
  const PROGRESS_INTERVAL := 0x1_0000

  type Digest = s: seq<u8> | |s| == 20 witness [0, 0, 0, 0, 0, 0, 0, 0, 0, 0, 0, 0, 0, 0, 0, 0, 0, 0, 0, 0]

  /** The digest of a fixed public key followed by the offset. */
  type Digests = nat -> Digest

  // ---------------------------------------------------------------- levels

  function LittleEndian(bytes: seq<u8>): nat {
    if bytes == [] then 0 else bytes[0] + 256 * LittleEndian(bytes[1..])
  }

  function TrailingZeros(n: nat): nat
    requires n > 0
  {
    if n % 2 == 1 then 0 else 1 + TrailingZeros(n / 2)
  }

  /** The number of trailing zero bits; all of them if there is no other. */
  function Level(bytes: seq<u8>): nat {
    var value := LittleEndian(bytes);
    if value == 0 then 8 * |bytes| else TrailingZeros(value)
  }

  function OddPart(n: nat): nat
    requires n > 0
  {
    if n % 2 == 1 then n else OddPart(n / 2)
  }

  /** The count is the exponent of two in the number. */
  lemma {:induction false} TrailingZerosIsExponent(n: nat)
    requires n > 0
    ensures n == PowerOfTwo(TrailingZeros(n)) * OddPart(n) && OddPart(n) % 2 == 1
  {
    if n % 2 == 0 {
      TrailingZerosIsExponent(n / 2);
      var power, odd := PowerOfTwo(TrailingZeros(n / 2)), OddPart(n / 2);
      assert 2 * power * odd == 2 * (power * odd);
    }
  }

  lemma DoubleHasOneMore(n: nat)
    requires n > 0
    ensures TrailingZeros(2 * n) == 1 + TrailingZeros(n)
  {
  }

  lemma ZeroByteCounts(n: nat)
    requires n > 0
    ensures TrailingZeros(256 * n) == 8 + TrailingZeros(n)
  {
    DoubleHasOneMore(n);
    DoubleHasOneMore(2 * n);
    DoubleHasOneMore(4 * n);
    DoubleHasOneMore(8 * n);
    DoubleHasOneMore(16 * n);
    DoubleHasOneMore(32 * n);
    DoubleHasOneMore(64 * n);
    DoubleHasOneMore(128 * n);
  }

  /** Bits above the lowest set bit do not matter. */
  lemma {:induction false} LowBitsDecide(low: nat, k: nat, high: nat)
    requires 0 < low < PowerOfTwo(k)
    ensures TrailingZeros(low + PowerOfTwo(k) * high) == TrailingZeros(low)
    decreases k
  {
    var half := PowerOfTwo(k - 1);
    var sum := low + 2 * (half * high);
    assert PowerOfTwo(k) * high == 2 * (half * high);
    if low % 2 == 0 {
      LowBitsDecide(low / 2, k - 1, high);
      assert sum / 2 == low / 2 + half * high;
    }
  }

  lemma LevelOfRest(bytes: seq<u8>)
    requires bytes != []
    ensures bytes[0] == 0 ==> Level(bytes) == 8 + Level(bytes[1..])
    ensures bytes[0] != 0 ==> Level(bytes) == TrailingZeros(bytes[0])
  {
    var rest := LittleEndian(bytes[1..]);
    if bytes[0] != 0 {
      assert PowerOfTwo(8) == 256;
      LowBitsDecide(bytes[0], 8, rest);
    } else if rest != 0 {
      ZeroByteCounts(rest);
    }
  }

  /** The level fits the byte it is counted in. */
  lemma {:induction false} LevelIsBounded(bytes: seq<u8>)
    ensures Level(bytes) <= 8 * |bytes|
  {
    if bytes != [] {
      LevelOfRest(bytes);
      LevelIsBounded(bytes[1..]);
      if bytes[0] != 0 {
        ByteHasFewZeros(bytes[0], 8);
      }
    }
  }

  lemma {:induction false} ByteHasFewZeros(b: nat, k: nat)
    requires 0 < b < PowerOfTwo(k)
    ensures TrailingZeros(b) < k
  {
    if b % 2 == 0 {
      ByteHasFewZeros(b / 2, k - 1);
    }
  }

  method GetLevel(hash: Digest) returns (level: u8)
    ensures level == Level(hash)
  {
    level := 0;
    LevelIsBounded(hash);
    assert hash[0..] == hash;
    for i := 0 to |hash|
      invariant level == 8 * i && level + Level(hash[i..]) == Level(hash)
    {
      LevelOfRest(hash[i..]);
      assert hash[i..][1..] == hash[i + 1..];
      if hash[i] == 0 {
        level := level + 8;
        continue;
      }
      var zeros := CountZeros(hash[i]);
      return level + zeros;
    }
  }

  /** Shift right until the lowest bit is set. */
  method CountZeros(byte: u8) returns (zeros: nat)
    requires byte != 0
    ensures zeros == TrailingZeros(byte)
  {
    zeros := 0;
    var shifted := byte;
    while shifted % 2 == 0
      invariant shifted > 0 && zeros + TrailingZeros(shifted) == TrailingZeros(byte)
      decreases shifted
    {
      zeros := zeros + 1;
      shifted := shifted / 2;
    }
  }

  // ---------------------------------------------------------------- searching

  predicate Reaches(digests: Digests, level: nat, offset: nat) {
    Level(digests(offset)) >= level
  }

  ghost predicate NoneIn(digests: Digests, level: nat, start: nat, end: nat) {
    forall k :: start <= k < end ==> !Reaches(digests, level, k)
  }

  /** The smallest offset from `start` on that reaches the level. */
  ghost predicate IsFirst(digests: Digests, level: nat, start: nat, offset: nat) {
    start <= offset <= MAX_OFFSET && Reaches(digests, level, offset) && NoneIn(digests, level, start, offset)
  }

  datatype Search = Found(offset: nat) | Stopped | Exhausted

  /** Whether the stop request is looked at after an offset. */
  predicate IsCheck(start: nat, offset: nat)
    requires start <= offset
  {
    offset < MAX_OFFSET && (offset - start + 1) % PROGRESS_INTERVAL == 0
  }

  /** Whether a search that looks for a stop request at the given moments was asked to stop before `end`. */
  ghost predicate StopsIn(stop: nat -> bool, start: nat, end: nat) {
    exists k :: start <= k < end && IsCheck(start, k) && stop(k)
  }

  /** Search from `start`; `stop(k)` says whether a stop has been requested when offset `k` has failed. */
  method FindOffset(digests: Digests, targetLevel: u8, start: nat, stop: nat -> bool) returns (r: Search)
    requires start <= MAX_OFFSET
    ensures r.Found? ==> IsFirst(digests, targetLevel, start, r.offset) && !StopsIn(stop, start, r.offset)
    ensures r.Stopped? ==> exists k :: start <= k < MAX_OFFSET && IsCheck(start, k) && stop(k)
                                       && NoneIn(digests, targetLevel, start, k + 1) && !StopsIn(stop, start, k)
    ensures r.Exhausted? <==> NoneIn(digests, targetLevel, start, MAX_OFFSET + 1) && !StopsIn(stop, start, MAX_OFFSET)
  {
    var offset := start;
    while true
      invariant start <= offset <= MAX_OFFSET
      invariant NoneIn(digests, targetLevel, start, offset) && !StopsIn(stop, start, offset)
      decreases MAX_OFFSET - offset
    {
      var level := GetLevel(digests(offset));
      if level >= targetLevel {
        assert Reaches(digests, targetLevel, offset);
        return Found(offset);
      }
      if offset == MAX_OFFSET {
        return Exhausted;
      }
      if (offset - start + 1) % PROGRESS_INTERVAL == 0 {
        if stop(offset) {
          assert IsCheck(start, offset);
          return Stopped;
        }
      }
      offset := offset + 1;
    }
  }

  /** An offset is accepted for a level exactly if it reaches it. */
  method ValidateOffset(digests: Digests, targetLevel: u8, offset: nat) returns (valid: bool)
    ensures valid <==> Reaches(digests, targetLevel, offset)
  {
    var level := GetLevel(digests(offset));
    return level >= targetLevel;
  }

  /** If any offset reaches the level there is a smallest one. */
  lemma {:induction false} FirstExists(digests: Digests, level: nat, start: nat, some: nat) returns (offset: nat)
    requires start <= some <= MAX_OFFSET && Reaches(digests, level, some)
    ensures IsFirst(digests, level, start, offset) && offset <= some
    decreases some
  {
    if k :| start <= k < some && Reaches(digests, level, k) {
      offset := FirstExists(digests, level, start, k);
    } else {
      offset := some;
    }
  }

  /** Resuming from the first offset of a lower level finds the first offset of the higher one. */
  lemma ResumingIsSearching(digests: Digests, level: nat, offset: nat, higher: nat, next: nat)
    requires IsFirst(digests, level, 0, offset) && level <= higher && IsFirst(digests, higher, offset, next)
    ensures IsFirst(digests, higher, 0, next)
  {
    forall k | 0 <= k < next
      ensures !Reaches(digests, higher, k)
    {
      assert k < offset ==> !Reaches(digests, level, k);
    }
  }
}
