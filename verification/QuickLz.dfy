/**
 The QuickLZ level-1 decoder. Two decoders are given: a simple reference, which
 finds a match by searching the token starts of its output, and the decoder of
 the client, which keeps a hash table up to date as it goes. They agree on
 every byte string.
 */
module QuickLz {
  import opened Basics

  const HASH_SIZE := 4096

  datatype Error =
    | TooSmall | HeaderTruncated | UnsupportedLevel | StreamingMode | CompressedSizeMismatch
    | ExceedsMaximum | InvalidUncompressedSize | EmptyPayload
    | UnexpectedEnd | InvalidControlWord | InvalidMatchLength | InvalidHashReference
    | InvalidReferenceOffset | ReferenceExceedsOutput | OutputSizeMismatch

  // ---------------------------------------------------------------- reading

  predicate Available(data: seq<u8>, source: nat, count: nat) {
    source + count <= |data|
  }

  function U16Little(data: seq<u8>, offset: nat): u16
    requires Available(data, offset, 2)
  {
    data[offset] + 0x100 * (data[offset + 1] as nat)
  }

  function U32Little(data: seq<u8>, offset: nat): u32
    requires Available(data, offset, 4)
  {
    U16Little(data, offset) + 0x1_0000 * (U16Little(data, offset + 2) as nat)
  }

  /** Bitwise exclusive or. */
  function Xor(a: nat, b: nat): nat
    decreases a + b
  {
    if a == 0 && b == 0 then 0 else 2 * Xor(a / 2, b / 2) + (a + b) % 2
  }

  function Hash(value: nat): (h: nat)
    ensures h < HASH_SIZE
  {
    Xor(value / 0x1000, value) % 0x1000
  }

  /** The hash of the three output bytes from `position` on. */
  function HashAt(out: seq<u8>, position: nat): (h: nat)
    requires position + 3 <= |out|
    ensures h < HASH_SIZE
  {
    Hash(U16Little(out, position) + 0x1_0000 * (out[position + 2] as nat))
  }

  // ---------------------------------------------------------------- reference decoder

  predicate Candidate(out: seq<u8>, starts: set<nat>, hash: nat, position: nat) {
    position in starts && position + 3 <= |out| && HashAt(out, position) == hash
  }

  /** The last token start before `limit` whose three bytes have been output and have the given hash. */
  function MostRecent(out: seq<u8>, starts: set<nat>, hash: nat, limit: nat): (r: Option<nat>)
    ensures r.Some? ==> r.value < limit && Candidate(out, starts, hash, r.value)
  {
    if limit == 0 then None
    else if Candidate(out, starts, hash, limit - 1) then Some(limit - 1)
    else MostRecent(out, starts, hash, limit - 1)
  }

  function Lookup(out: seq<u8>, starts: set<nat>, hash: nat): Option<nat> {
    MostRecent(out, starts, hash, |out|)
  }

  /** The remainder of `i` by `period`, by repeated subtraction. */
  function Wrap(i: nat, period: nat): (r: nat)
    requires period > 0
    ensures r < period
  {
    if i < period then i else Wrap(i - period, period)
  }

  /** The bytes from `reference` to the end of the output, repeated for `length` bytes. */
  function Periodic(out: seq<u8>, reference: nat, length: nat): (s: seq<u8>)
    requires reference < |out|
    ensures |s| == length
  {
    seq(length, i requires 0 <= i => out[reference + Wrap(i, |out| - reference)])
  }

  /** Each further byte of a match is the byte the same distance back, be it old or just copied. */
  lemma {:induction false} PeriodicNext(out: seq<u8>, reference: nat, i: nat)
    requires reference < |out|
    ensures var grown := out + Periodic(out, reference, i);
            grown + [grown[reference + i]] == out + Periodic(out, reference, i + 1)
  {
  }

  datatype Match = Match(hash: nat, length: nat, source: nat)

  function ReadMatch(data: seq<u8>, source: nat): (r: Result<Match, Error>)
    ensures r.Ok? ==> r.value.length >= 3 && r.value.source <= |data| && r.value.hash < HASH_SIZE
  {
    if !Available(data, source, 2) then Err(UnexpectedEnd) else
    var encoded := U16Little(data, source);
    var hash := encoded / 16 % 4096;
    if encoded % 16 != 0 then
      var length := encoded % 16 + 2;
      if length < 3 then Err(InvalidMatchLength) else Ok(Match(hash, length, source + 2))
    else if !Available(data, source, 3) then
      Err(UnexpectedEnd)
    else if data[source + 2] < 3 then
      Err(InvalidMatchLength)
    else
      Ok(Match(hash, data[source + 2], source + 3))
  }

  function ReadControlWord(data: seq<u8>, source: nat): (r: Result<u32, Error>)
    ensures r.Ok? ==> Available(data, source, 4)
  {
    if !Available(data, source, 4) then Err(UnexpectedEnd)
    else if U32Little(data, source) == 0 then Err(InvalidControlWord)
    else Ok(U32Little(data, source))
  }

  /** The output is grown by one match, or the first of the decoder's objections to it is raised. */
  function ApplyMatch(out: seq<u8>, starts: set<nat>, m: Match, size: nat): (r: Result<seq<u8>, Error>)
    requires |out| <= size
    ensures r.Ok? ==> |r.value| == |out| + m.length <= size
  {
    var reference := Lookup(out, starts, m.hash);
    if reference.None? then Err(InvalidHashReference)
    else if m.length > size - |out| then Err(ReferenceExceedsOutput)
    else Ok(out + Periodic(out, reference.value, m.length))
  }

  predicate IsTail(position: nat, size: nat) {
    size <= 10 || position >= size - 10
  }

  /** The last literals: control words are still interspersed but no longer inspected. */
  function Tail(data: seq<u8>, source: nat, control: u32, out: seq<u8>, size: nat): (r: Result<seq<u8>, Error>)
    requires |out| <= size
    ensures r.Ok? ==> |r.value| == size && out <= r.value
    ensures r.Err? ==> r.error == UnexpectedEnd
    decreases size - |out|
  {
    if |out| == size then Ok(out) else
    var skip := if control == 1 then 4 else 0;
    var current := if control == 1 then 0x8000_0000 else control;
    if !Available(data, source, skip + 1) then Err(UnexpectedEnd)
    else Tail(data, source + skip + 1, current / 2, out + [data[source + skip]], size)
  }

  /** Decode from a point between two tokens, given the output so far and where its tokens started. */
  function Decode(data: seq<u8>, source: nat, control: u32, out: seq<u8>, starts: set<nat>, size: nat)
    : (r: Result<seq<u8>, Error>)
    requires |out| <= size
    ensures r.Ok? ==> |r.value| == size && out <= r.value
    ensures r != Err(InvalidReferenceOffset) && r != Err(OutputSizeMismatch)
    decreases size - |out|
  {
    if |out| == size then Ok(out) else
    var word := if control == 1 then ReadControlWord(data, source) else Ok(control);
    if word.Err? then Err(word.error) else
    var next := if control == 1 then source + 4 else source;
    if word.value % 2 == 1 then
      var m := ReadMatch(data, next);
      if m.Err? then Err(m.error) else
      var grown := ApplyMatch(out, starts, m.value, size);
      if grown.Err? then Err(grown.error)
      else Decode(data, m.value.source, word.value / 2, grown.value, starts + {|out|}, size)
    else if IsTail(|out|, size) then
      Tail(data, next, word.value, out, size)
    else if !Available(data, next, 1) then
      Err(UnexpectedEnd)
    else
      Decode(data, next + 1, word.value / 2, out + [data[next]], starts + {|out|}, size)
  }

  // ---------------------------------------------------------------- whole blocks

  function HeaderSize(data: seq<u8>): nat
    requires |data| > 0
  {
    if HasBit(data[0], 2) then 9 else 3
  }

  function DeclaredCompressed(data: seq<u8>): nat
    requires |data| >= 3 && |data| >= HeaderSize(data)
  {
    if HeaderSize(data) == 9 then U32Little(data, 1) else data[1]
  }

  function DeclaredSize(data: seq<u8>): nat
    requires |data| >= 3 && |data| >= HeaderSize(data)
  {
    if HeaderSize(data) == 9 then U32Little(data, 5) else data[2]
  }

  /** What the header alone decides: an error, or whether the body is compressed. */
  function CheckHeader(data: seq<u8>, maximum: nat): (r: Result<bool, Error>)
    ensures r.Ok? ==> |data| >= 3 && |data| >= HeaderSize(data) && DeclaredSize(data) <= maximum
  {
    if |data| < 3 then Err(TooSmall)
    else if |data| < HeaderSize(data) then Err(HeaderTruncated)
    else if data[0] / 4 % 4 != 1 then Err(UnsupportedLevel)
    else if data[0] / 16 % 4 != 0 then Err(StreamingMode)
    else if DeclaredCompressed(data) != |data| then Err(CompressedSizeMismatch)
    else if DeclaredSize(data) > maximum then Err(ExceedsMaximum)
    else if !HasBit(data[0], 1) then
      if |data| - HeaderSize(data) != DeclaredSize(data) then Err(InvalidUncompressedSize) else Ok(false)
    else if DeclaredSize(data) == 0 then Err(EmptyPayload)
    else Ok(true)
  }

  /** The reference for a whole block. */
  function Decompressed(data: seq<u8>, maximum: nat): (r: Result<seq<u8>, Error>)
    ensures r.Ok? ==> |data| >= 3 && |data| >= HeaderSize(data) && |r.value| == DeclaredSize(data) <= maximum
    ensures r != Err(InvalidReferenceOffset) && r != Err(OutputSizeMismatch)
  {
    var header := CheckHeader(data, maximum);
    if header.Err? then Err(header.error)
    else if header.value then Decode(data, HeaderSize(data), 1, [], {}, DeclaredSize(data))
    else Ok(data[HeaderSize(data)..])
  }

  // ---------------------------------------------------------------- facts about the reference

  /** The search misses nothing: no later token start before `limit` has the hash. */
  lemma {:induction false} MostRecentIsLast(out: seq<u8>, starts: set<nat>, hash: nat, limit: nat, p: nat)
    requires p < limit && Candidate(out, starts, hash, p)
    ensures MostRecent(out, starts, hash, limit).Some? && p <= MostRecent(out, starts, hash, limit).value
  {
    if p < limit - 1 {
      MostRecentIsLast(out, starts, hash, limit - 1, p);
    }
  }

  /** Growing the output or the token starts beyond `limit` does not disturb the search below it. */
  lemma {:induction false} MostRecentStable(
    out: seq<u8>, starts: set<nat>, out': seq<u8>, starts': set<nat>, hash: nat, limit: nat)
    requires out <= out'
    requires forall p: nat :: p < limit ==> (p in starts <==> p in starts')
    requires forall p: nat :: p < limit && p in starts ==> p + 3 <= |out|
    ensures MostRecent(out', starts', hash, limit) == MostRecent(out, starts, hash, limit)
  {
    if limit > 0 {
      MostRecentStable(out, starts, out', starts', hash, limit - 1);
      CandidateStable(out, starts, out', starts', hash, limit - 1);
    }
  }

  lemma CandidateStable(out: seq<u8>, starts: set<nat>, out': seq<u8>, starts': set<nat>, hash: nat, p: nat)
    requires out <= out' && (p in starts <==> p in starts') && (p in starts ==> p + 3 <= |out|)
    ensures Candidate(out, starts, hash, p) <==> Candidate(out', starts', hash, p)
  {
    assert p in starts ==> HashAt(out, p) == HashAt(out', p);
  }

  /** Positions that are not yet complete do not take part in the search. */
  lemma {:induction false} MostRecentSkips(out: seq<u8>, starts: set<nat>, hash: nat, low: nat, high: nat)
    requires low <= high
    requires forall p: nat :: low <= p < high && p in starts ==> p + 3 > |out|
    ensures MostRecent(out, starts, hash, high) == MostRecent(out, starts, hash, low)
    decreases high
  {
    if low < high {
      MostRecentSkips(out, starts, hash, low, high - 1);
    }
  }

  lemma NoStartsBetween(out: seq<u8>, starts: set<nat>, hash: nat, low: nat, high: nat)
    requires low <= high
    requires forall p: nat :: low <= p < high ==> p !in starts
    ensures MostRecent(out, starts, hash, high) == MostRecent(out, starts, hash, low)
  {
    MostRecentSkips(out, starts, hash, low, high);
  }

  /** A match starts with the very bytes its hash was taken from. */
  lemma {:induction false} MatchBeginsWithItsHash(out: seq<u8>, starts: set<nat>, m: Match, size: nat)
    requires |out| <= size && m.length >= 3
    requires ApplyMatch(out, starts, m, size).Ok?
    ensures HashAt(ApplyMatch(out, starts, m, size).value, |out|) == m.hash
  {
  }

  lemma {:induction false} MulAtLeast(x: int, d: int)
    requires x >= 1 && d > 0
    ensures x * d >= d
  {
  }

  lemma {:induction false} RemainderUnique(q: int, r: int, q': int, r': int, d: int)
    requires 0 <= r < d && 0 <= r' < d && q * d + r == q' * d + r'
    ensures r == r'
  {
    assert (q - q') * d == q * d - q' * d && (q' - q) * d == q' * d - q * d;
    if q > q' {
      MulAtLeast(q - q', d);
    } else if q < q' {
      MulAtLeast(q' - q, d);
    }
  }

  lemma {:induction false} WrapIsRemainder(i: nat, period: nat)
    requires period > 0
    ensures Wrap(i, period) == i % period
  {
    if i >= period {
      var j := i - period;
      WrapIsRemainder(j, period);
      QuotientAndRemainder(i, period);
      QuotientAndRemainder(j, period);
      OneMore(j / period, period);
      RemainderUnique(i / period, i % period, j / period + 1, j % period, period);
    }
  }

  lemma QuotientAndRemainder(i: nat, period: nat)
    requires period > 0
    ensures i == (i / period) * period + i % period && i % period < period
  {
  }

  lemma OneMore(q: nat, d: nat)
    ensures (q + 1) * d == q * d + d
  {
  }

  // ---------------------------------------------------------------- the decoder

  /** The decoder's state: positions, output buffer and the incrementally maintained hash table. */
  class Decoder {
    const data: seq<u8>
    var source: nat
    var destination: nat
    const output: array<u8>
    const table: array<nat>
    const valid: array<bool>
    var lastHashed: int

    /** Where the tokens decoded so far started in the output. */
    ghost var starts: set<nat>

    ghost predicate Shape()
      reads this
    {
      && table.Length == HASH_SIZE && valid.Length == HASH_SIZE
      && output as object != table && output as object != valid && table as object != valid
      && destination <= output.Length
      && -1 <= lastHashed < destination
      && (forall p: nat :: p in starts ==> p < destination)
    }

    ghost function Out(): seq<u8>
      requires destination <= output.Length
      reads this`destination, output
    {
      output[..destination]
    }

    function Entry(hash: nat): Option<nat>
      requires hash < table.Length && hash < valid.Length
      reads table, valid
    {
      if valid[hash] then Some(table[hash]) else None
    }

    /** The table is the search over the given token starts below `limit`. */
    ghost predicate IndexesThese(out: seq<u8>, starts: set<nat>, limit: nat)
      requires table.Length == HASH_SIZE && valid.Length == HASH_SIZE
      reads table, valid
    {
      forall h :: 0 <= h < HASH_SIZE ==> Entry(h) == MostRecent(out, starts, h, limit)
    }

    ghost predicate Indexes(limit: nat)
      requires destination <= output.Length && table.Length == HASH_SIZE && valid.Length == HASH_SIZE
      reads this`destination, this`starts, output, table, valid
    {
      IndexesThese(Out(), starts, limit)
    }

    /** Everything up to `lastHashed` is indexed, and everything after it is a token start. */
    ghost predicate Valid()
      reads this, output, table, valid
    {
      && Shape()
      && (forall p: nat :: p in starts && p <= lastHashed ==> p + 3 <= destination)
      && (forall p: nat :: lastHashed < p < destination ==> p in starts)
      && Indexes(lastHashed + 1)
    }

    /** Between tokens, no complete token start is left out of the index. */
    ghost predicate Current()
      reads this, output, table, valid
    {
      Valid() && destination - 3 <= lastHashed
    }

    constructor (data: seq<u8>, source: nat, size: nat)
      ensures Current() && fresh(output) && fresh(table) && fresh(valid)
      ensures this.data == data && this.source == source && output.Length == size
      ensures destination == 0 && starts == {}
    {
      this.data, this.source, destination, lastHashed, starts := data, source, 0, -1, {};
      output := new u8[size];
      table := new nat[HASH_SIZE](_ => 0);
      valid := new bool[HASH_SIZE](_ => false);
    }

    /** At every back-reference the table is the simple search over all token starts. */
    lemma {:induction false} TableIsLookup(hash: nat)
      requires Current() && hash < HASH_SIZE
      ensures Entry(hash) == Lookup(Out(), starts, hash)
    {
      MostRecentSkips(Out(), starts, hash, lastHashed + 1, destination);
    }

    /** Index one more token start. */
    method IndexPosition(position: nat)
      requires Shape() && Indexes(position) && position in starts && position + 3 <= destination
      modifies table, valid
      ensures Indexes(position + 1)
    {
      var hash := HashAt(output[..destination], position);
      table[hash] := position;
      valid[hash] := true;
      forall h | 0 <= h < HASH_SIZE
        ensures Entry(h) == MostRecent(Out(), starts, h, position + 1)
      {
        assert Candidate(Out(), starts, h, position) <==> h == hash;
        assert h != hash ==> Entry(h) == old(Entry(h)) == MostRecent(old(Out()), starts, h, position);
      }
    }

    /** Index the token starts after `lastHashed`, as far as `maximumPosition` and the output allow. */
    method UpdateHashUpto(maximumPosition: nat)
      requires Shape() && Indexes(lastHashed + 1)
      requires forall p: nat :: lastHashed < p <= maximumPosition && p + 3 <= destination ==> p in starts
      modifies this`lastHashed, table, valid
      ensures Shape() && Indexes(lastHashed + 1)
      ensures lastHashed == if destination >= 3 && old(lastHashed) < Min(maximumPosition, destination - 3)
                            then Min(maximumPosition, destination - 3) else old(lastHashed)
    {
      if destination < 3 {
        return;
      }
      var maximum := Min(maximumPosition, destination - 3);
      var position := lastHashed + 1;
      if position > maximum {
        return;
      }
      while position <= maximum
        invariant old(lastHashed) + 1 <= position <= maximum + 1
        invariant lastHashed == old(lastHashed)
        invariant Shape() && Indexes(position)
      {
        IndexPosition(position);
        position := position + 1;
      }
      lastHashed := maximum;
    }

    method DecodeLiteral() returns (ok: bool)
      requires Current() && destination < output.Length
      modifies this, output, table, valid
      ensures ok <==> Available(data, old(source), 1)
      ensures ok ==> Current() && source == old(source) + 1
      ensures ok ==> Out() == old(Out()) + [data[old(source)]] && starts == old(starts) + {old(destination)}
    {
      if !Available(data, source, 1) {
        return false;
      }
      ghost var before, beforeStarts := Out(), starts;
      output[destination] := data[source];
      starts := starts + {destination};
      source, destination := source + 1, destination + 1;
      assert Out() == before + [data[source - 1]];
      KeepIndex(before, beforeStarts);
      if destination >= 3 {
        UpdateHashUpto(destination - 3);
      }
      return true;
    }

    method FindReference(hash: nat) returns (r: Result<nat, Error>)
      requires hash < table.Length && hash < valid.Length
      ensures r == if Entry(hash).None? then Err(InvalidHashReference)
                   else if Entry(hash).value >= destination then Err(InvalidReferenceOffset)
                   else Ok(Entry(hash).value)
    {
      if !valid[hash] {
        return Err(InvalidHashReference);
      }
      var reference := table[hash];
      if reference >= destination {
        return Err(InvalidReferenceOffset);
      }
      return Ok(reference);
    }

    /** Copy byte by byte; a match may overlap its own output. */
    method CopyMatch(reference: nat, length: nat)
      requires Shape() && reference < destination && destination + length <= output.Length
      modifies output
      ensures output[..destination + length] == old(Out()) + Periodic(old(Out()), reference, length)
    {
      ghost var before := Out();
      for i := 0 to length
        invariant output[..destination + i] == before + Periodic(before, reference, i)
      {
        PeriodicNext(before, reference, i);
        assert output[..destination + i][reference + i] == output[reference + i];
        output[destination + i] := output[reference + i];
        assert output[..destination + (i + 1)] == output[..destination + i] + [output[destination + i]];
      }
    }

    /** Resolve a match against the table, copy it and index its start but not its interior. */
    method ApplyReference(hash: nat, matchLength: nat) returns (error: Option<Error>)
      requires Current() && hash < HASH_SIZE && matchLength >= 3
      modifies this`destination, this`starts, this`lastHashed, output, table, valid
      ensures var grown := ApplyMatch(old(Out()), old(starts), Match(hash, matchLength, source), output.Length);
              if grown.Err? then error == Some(grown.error)
              else error == None && Current() && Out() == grown.value && starts == old(starts) + {old(destination)}
    {
      TableIsLookup(hash);
      var reference := FindReference(hash);
      if reference.Err? {
        return Some(reference.error);
      }
      if matchLength > output.Length - destination {
        return Some(ReferenceExceedsOutput);
      }
      CopyMatch(reference.value, matchLength);
      assert Out() == old(Out());
      AdvancePastMatch(matchLength);
      return None;
    }

    /** Account for a match whose bytes are already in the buffer. */
    method AdvancePastMatch(matchLength: nat)
      requires Current() && 3 <= matchLength <= output.Length - destination
      modifies this`destination, this`starts, this`lastHashed, table, valid
      ensures Current() && destination == old(destination) + matchLength
      ensures starts == old(starts) + {old(destination)}
    {
      var matchStart := destination;
      IndexMatchStart(matchLength);
      SkipInterior(matchStart);
      ghost var out := Out();
      assert IndexesThese(out, starts, destination);
      lastHashed := destination - 1;
      assert Out() == out && IndexesThese(out, starts, lastHashed + 1);
    }

    method IndexMatchStart(matchLength: nat)
      requires Current() && 3 <= matchLength <= output.Length - destination
      modifies this`destination, this`starts, this`lastHashed, table, valid
      ensures destination == old(destination) + matchLength && starts == old(starts) + {old(destination)}
      ensures Shape() && lastHashed == old(destination) && Indexes(lastHashed + 1)
    {
      ghost var before, beforeStarts := Out(), starts;
      var matchStart := destination;
      destination := destination + matchLength;
      starts := starts + {matchStart};
      KeepIndex(before, beforeStarts);
      UpdateHashUpto(matchStart);
    }

    method DecodeReference() returns (error: Option<Error>)
      requires Current() && destination < output.Length
      modifies this, output, table, valid
      ensures var m := ReadMatch(data, old(source));
              if m.Err? then error == Some(m.error)
              else var grown := ApplyMatch(old(Out()), old(starts), m.value, output.Length);
                   if grown.Err? then error == Some(grown.error)
                   else && error == None && Current() && Out() == grown.value
                        && source == m.value.source && starts == old(starts) + {old(destination)}
    {
      if !Available(data, source, 2) {
        return Some(UnexpectedEnd);
      }
      var encoded := U16Little(data, source);
      var hash := encoded / 16 % 4096;
      var matchLength: nat;
      if encoded % 16 != 0 {
        matchLength := encoded % 16 + 2;
        source := source + 2;
      } else {
        if !Available(data, source, 3) {
          return Some(UnexpectedEnd);
        }
        matchLength := data[source + 2];
        source := source + 3;
      }
      if matchLength < 3 {
        return Some(InvalidMatchLength);
      }
      error := ApplyReference(hash, matchLength);
    }

    /** The interior of a match holds no token start, so it may be passed over. */
    lemma {:induction false} SkipInterior(matchStart: nat)
      requires Shape() && Indexes(matchStart + 1) && matchStart + 3 <= destination
      requires forall p: nat :: p in starts ==> p <= matchStart
      ensures Indexes(destination)
    {
      forall h | 0 <= h < HASH_SIZE
        ensures Entry(h) == MostRecent(Out(), starts, h, destination)
      {
        NoStartsBetween(Out(), starts, h, matchStart + 1, destination);
      }
    }

    method DecodeTail(control: u32) returns (ok: bool)
      requires Shape()
      modifies this, output
      ensures var r := Tail(data, old(source), control, old(Out()), output.Length);
              if r.Err? then !ok else ok && destination == output.Length && output[..] == r.value
    {
      var current := control;
      ghost var goal := Tail(data, source, control, Out(), output.Length);
      while destination < output.Length
        invariant destination <= output.Length
        invariant Tail(data, source, current, output[..destination], output.Length) == goal
      {
        if current == 1 {
          if !Available(data, source, 4) {
            return false;
          }
          source := source + 4;
          current := 0x8000_0000;
        }
        if !Available(data, source, 1) {
          return false;
        }
        ghost var before := output[..destination];
        output[destination] := data[source];
        assert output[..destination + 1] == before + [data[source]];
        source, destination := source + 1, destination + 1;
        current := current / 2;
      }
      assert output[..] == output[..destination];
      return true;
    }

    method Finish() returns (r: Result<seq<u8>, Error>)
      ensures r == if destination != output.Length then Err(OutputSizeMismatch) else Ok(output[..])
    {
      if destination != output.Length {
        return Err(OutputSizeMismatch);
      }
      return Ok(output[..]);
    }

    /** The decoder and the reference agree on every input. */
    method Run() returns (r: Result<seq<u8>, Error>)
      requires Current() && destination == 0 && starts == {}
      modifies this, output, table, valid
      ensures r == Decode(data, old(source), 1, [], {}, output.Length)
    {
      var control: u32 := 1;
      ghost var goal := Decode(data, source, 1, [], {}, output.Length);
      while destination < output.Length
        invariant Current()
        invariant Decode(data, source, control, Out(), starts, output.Length) == goal
        decreases output.Length - destination
      {
        if control == 1 {
          var word := ReadControlWord(data, source);
          if word.Err? {
            return Err(word.error);
          }
          control, source := word.value, source + 4;
        }
        if control % 2 == 1 {
          control := control / 2;
          var error := DecodeReference();
          if error.Some? {
            return Err(error.value);
          }
          continue;
        }
        if IsTail(destination, output.Length) {
          var ok := DecodeTail(control);
          if !ok {
            return Err(UnexpectedEnd);
          }
          r := Finish();
          return;
        }
        var ok := DecodeLiteral();
        if !ok {
          return Err(UnexpectedEnd);
        }
        control := control / 2;
      }
      assert output[..output.Length] == output[..];
      r := Finish();
    }

    /** New output and new token starts leave the index valid. */
    lemma {:induction false} KeepIndex(before: seq<u8>, beforeStarts: set<nat>)
      requires Shape() && before <= Out() && lastHashed < |before|
      requires forall p: nat :: p <= lastHashed ==> (p in starts <==> p in beforeStarts)
      requires forall p: nat :: p in beforeStarts && p <= lastHashed ==> p + 3 <= |before|
      requires IndexesThese(before, beforeStarts, lastHashed + 1)
      ensures Indexes(lastHashed + 1)
    {
      forall h | 0 <= h < HASH_SIZE
        ensures Entry(h) == MostRecent(Out(), starts, h, lastHashed + 1)
      {
        MostRecentStable(before, beforeStarts, Out(), starts, h, lastHashed + 1);
      }
    }
  }

  function Min(a: int, b: int): int {
    if a <= b then a else b
  }

  /** Decompress one block, or say why it cannot be decompressed. */
  method Decompress(data: seq<u8>, maximum: nat) returns (r: Result<seq<u8>, Error>)
    ensures r == Decompressed(data, maximum)
  {
    var header := CheckHeader(data, maximum);
    if header.Err? {
      return Err(header.error);
    }
    if !header.value {
      return Ok(data[HeaderSize(data)..]);
    }
    var decoder := new Decoder(data, HeaderSize(data), DeclaredSize(data));
    r := decoder.Run();
  }
}
