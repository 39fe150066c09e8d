/**
 The QuickLZ level-1 format, told from the writing side: tokens, their bytes and
 what they stand for. Nothing here refers to how a decoder reads them; the
 theorem at the end says that the decoder reads them back.
 */
module QuickLzFormat {
  import opened Basics
  import QuickLz

  const TOKENS_PER_WORD: nat := 31
  const TAIL_LITERALS: nat := 10
  const HASH_BITS: nat := 12

  /** A literal byte, or a match: the most recent token start with the hash is copied from. */
  datatype Token = Literal(value: u8) | Match(hash: nat, length: nat, short: bool) {
    /** What fits the fields of the format. */
    predicate Encodable() {
      Match? ==> hash < 0x1000 && 3 <= length < 0x100 && (short ==> length <= 17)
    }

    function Width(): (w: nat)
      ensures Encodable() ==> w > 0
    {
      if Literal? then 1 else length
    }

    function Flag(): nat {
      if Match? then 1 else 0
    }

    /** A short match holds its length less two beside the hash; a long one has a zero there and a third byte. */
    function Bytes(): seq<u8>
      requires Encodable()
    {
      match this
      case Literal(value) => [value]
      case Match(hash, length, short) =>
        if short then Bytes16(hash * 16 + (length - 2)) else Bytes16(hash * 16) + [length]
    }
  }

  function Bytes16(value: u16): seq<u8> {
    [value % 0x100, value / 0x100]
  }

  function Bytes32(value: u32): seq<u8> {
    Bytes16(value % 0x1_0000) + Bytes16(value / 0x1_0000)
  }

  ghost predicate AllEncodable(tokens: seq<Token>) {
    forall i :: 0 <= i < |tokens| ==> tokens[i].Encodable()
  }

  ghost predicate AllLiteral(tokens: seq<Token>, k: nat) {
    forall i :: k <= i < |tokens| ==> tokens[i].Literal?
  }

  // ---------------------------------------------------------------- the stream of tokens

  /** The flags of `n` tokens from the k-th on, the first one lowest, below a sentinel bit; missing tokens have flag zero. */
  function Word(tokens: seq<Token>, k: nat, n: nat): (w: nat)
    ensures PowerOfTwo(n) <= w < 2 * PowerOfTwo(n)
    decreases n, tokens
  {
    if n == 0 then 1
    else (if k < |tokens| then tokens[k].Flag() else 0) + 2 * Word(tokens, k + 1, n - 1)
  }

  lemma WordFits(tokens: seq<Token>, k: nat)
    ensures 0x8000_0000 <= Word(tokens, k, TOKENS_PER_WORD) < 0x1_0000_0000
  {
    FullWord();
  }

  lemma FullWord()
    ensures PowerOfTwo(TOKENS_PER_WORD) == 0x8000_0000
  {
    assert PowerOfTwo(8) == 0x100;
    assert PowerOfTwo(16) == 0x1_0000;
    assert PowerOfTwo(24) == 0x100_0000;
  }

  /** The bytes of the tokens from the k-th on, when `n` more tokens are covered by the last control word. */
  function Stream(tokens: seq<Token>, k: nat, n: nat): seq<u8>
    requires AllEncodable(tokens)
    decreases |tokens| - k, if n == 0 then 1 else 0
  {
    if k >= |tokens| then []
    else if n == 0 then
      WordFits(tokens, k);
      Bytes32(Word(tokens, k, TOKENS_PER_WORD)) + Stream(tokens, k, TOKENS_PER_WORD)
    else
      tokens[k].Bytes() + Stream(tokens, k + 1, n - 1)
  }

  // ---------------------------------------------------------------- what the tokens stand for

  /** Bit `i` of an unsigned integer. */
  predicate Bit(value: nat, i: nat) {
    if i == 0 then value % 2 == 1 else Bit(value / 2, i - 1)
  }

  /** The low twelve bits of a 24-bit value exclusive-or the same value shifted right by twelve. */
  ghost predicate IsHashOf(hash: nat, value: nat) {
    hash < 0x1000 && forall i: nat :: i < HASH_BITS ==> IsMixed(hash, value, i)
  }

  predicate IsMixed(hash: nat, value: nat, i: nat) {
    Bit(hash, i) <==> (Bit(value, i) != Bit(value, i + HASH_BITS))
  }

  /** The three bytes of the output at `position` have this hash. */
  ghost predicate HashesTo(out: seq<u8>, position: nat, hash: nat) {
    position + 3 <= |out| && IsHashOf(hash, ThreeBytes(out, position))
  }

  function ThreeBytes(out: seq<u8>, position: nat): nat
    requires position + 3 <= |out|
  {
    out[position] + 0x100 * (out[position + 1] as nat) + 0x1_0000 * (out[position + 2] as nat)
  }

  /** The most recent token start with the hash. */
  ghost predicate Names(out: seq<u8>, starts: set<nat>, hash: nat, reference: nat) {
    && reference in starts && HashesTo(out, reference, hash)
    && forall later {:trigger HashesTo(out, later, hash)} ::
         later in starts && later > reference ==> !HashesTo(out, later, hash)
  }

  /** The output after `length` bytes have been copied one by one, the copy possibly running into itself. */
  function Copied(out: seq<u8>, reference: nat, length: nat): (s: seq<u8>)
    requires reference < |out|
    ensures |s| == |out| + length
  {
    if length == 0 then out else
    var before := Copied(out, reference, length - 1);
    before + [before[reference + length - 1]]
  }

  /** One token more: its byte, or its copy, is appended to the output. */
  ghost predicate Grows(token: Token, out: seq<u8>, starts: set<nat>, grown: seq<u8>) {
    match token
    case Literal(value) => grown == out + [value]
    case Match(hash, length, _) =>
      exists reference: nat ::
        reference < |out| && Names(out, starts, hash, reference) && grown == Copied(out, reference, length)
  }

  /** Where the first `k` tokens started. */
  ghost function Starts(outs: seq<seq<u8>>, k: nat): set<nat>
    requires k <= |outs|
  {
    if k == 0 then {} else Starts(outs, k - 1) + {|outs[k - 1]|}
  }

  /** The output before each token and after the last one, beginning with nothing. */
  ghost predicate Expands(tokens: seq<Token>, outs: seq<seq<u8>>) {
    && |outs| == |tokens| + 1 && outs[0] == []
    && forall k {:trigger ExpandsAt(tokens, outs, k)} :: 0 <= k < |tokens| ==> ExpandsAt(tokens, outs, k)
  }

  ghost predicate ExpandsAt(tokens: seq<Token>, outs: seq<seq<u8>>, k: nat)
    requires k < |tokens| == |outs| - 1
  {
    Grows(tokens[k], outs[k], Starts(outs, k), outs[k + 1])
  }

  /** Once a literal starts within the last ten bytes, only literals follow. */
  ghost predicate EndsInLiterals(tokens: seq<Token>, outs: seq<seq<u8>>)
    requires |outs| == |tokens| + 1
  {
    forall k :: 0 <= k < |tokens| && tokens[k].Literal? && |outs[|tokens|]| <= |outs[k]| + TAIL_LITERALS ==>
      AllLiteral(tokens, k)
  }

  /** The tokens are as the format demands and stand for `result`. */
  ghost predicate Compresses(tokens: seq<Token>, outs: seq<seq<u8>>, result: seq<u8>) {
    AllEncodable(tokens) && Expands(tokens, outs) && EndsInLiterals(tokens, outs) && result == outs[|tokens|]
  }

  // ---------------------------------------------------------------- blocks

  /** The flag byte: two unused bits, no streaming, level one, header size, compressed or not. */
  function FlagByte(spare: nat, long: bool, compressed: bool): u8
    requires spare < 4
  {
    64 * spare + 4 + (if long then 2 else 0) + (if compressed then 1 else 0)
  }

  /** Whether header and body fit the size fields of the header. */
  predicate SizesFit(long: bool, bodySize: nat, size: nat) {
    if long then 9 + bodySize < 0x1_0000_0000 && size < 0x1_0000_0000 else 3 + bodySize < 0x100 && size < 0x100
  }

  /** A block: flags, its own size, the size of what it stands for, and the body. */
  function Block(spare: nat, long: bool, compressed: bool, size: nat, body: seq<u8>): seq<u8>
    requires spare < 4 && SizesFit(long, |body|, size)
  {
    [FlagByte(spare, long, compressed)]
    + (if long then Bytes32(9 + |body|) + Bytes32(size) else [3 + |body|, size])
    + body
  }

  // ---------------------------------------------------------------- the hash

  lemma {:induction false} XorBit(a: nat, b: nat, mixed: nat, i: nat)
    requires mixed == QuickLz.Xor(a, b)
    ensures Bit(mixed, i) <==> (Bit(a, i) != Bit(b, i))
    decreases i
  {
    XorStep(a, b);
    if i > 0 {
      XorBit(a / 2, b / 2, mixed / 2, i - 1);
      NextBit(a, i);
      NextBit(b, i);
      NextBit(mixed, i);
    } else {
      OddSum(a, b, mixed);
    }
  }

  lemma OddSum(a: nat, b: nat, mixed: nat)
    requires mixed % 2 == (a + b) % 2
    ensures mixed % 2 == 1 <==> (a % 2 == 1) != (b % 2 == 1)
  {
  }

  lemma NextBit(value: nat, i: nat)
    requires i > 0
    ensures Bit(value, i) == Bit(value / 2, i - 1)
  {
  }

  lemma {:induction false} XorStep(a: nat, b: nat)
    ensures QuickLz.Xor(a, b) % 2 == (a + b) % 2 && QuickLz.Xor(a, b) / 2 == QuickLz.Xor(a / 2, b / 2)
  {
    if a == 0 && b == 0 {
      assert a / 2 == 0 && b / 2 == 0;
    } else {
      Doubled(QuickLz.Xor(a / 2, b / 2), (a + b) % 2);
    }
  }

  lemma Doubled(half: nat, low: nat)
    requires low < 2
    ensures (2 * half + low) % 2 == low && (2 * half + low) / 2 == half
  {
  }

  /** The low `k` bits. */
  function Low(value: nat, k: nat): nat {
    if k == 0 then 0 else value % 2 + 2 * Low(value / 2, k - 1)
  }

  ghost predicate Agree(a: nat, b: nat, k: nat) {
    forall i: nat :: i < k ==> SameBit(a, b, i)
  }

  predicate SameBit(a: nat, b: nat, i: nat) {
    Bit(a, i) <==> Bit(b, i)
  }

  lemma {:induction false} AgreeingBits(a: nat, b: nat, k: nat)
    ensures Agree(a, b, k) <==> Low(a, k) == Low(b, k)
  {
    if k > 0 {
      AgreeingBits(a / 2, b / 2, k - 1);
      AgreeSplit(a, b, k - 1);
    }
  }

  lemma {:induction false} AgreeSplit(a: nat, b: nat, k: nat)
    ensures Agree(a, b, k + 1) <==> a % 2 == b % 2 && Agree(a / 2, b / 2, k)
  {
    if Agree(a, b, k + 1) {
      assert SameBit(a, b, 0);
      forall i: nat | i < k ensures SameBit(a / 2, b / 2, i) {
        assert SameBit(a, b, i + 1);
      }
    }
    if a % 2 == b % 2 && Agree(a / 2, b / 2, k) {
      forall i: nat | i < k + 1 ensures SameBit(a, b, i) {
        assert i > 0 ==> SameBit(a / 2, b / 2, i - 1);
      }
    }
  }

  /** The low twelve bits are the remainder. */
  lemma LowIsRemainder(value: nat, k: nat)
    requires k == HASH_BITS
    ensures Low(value, k) == value % 0x1000
  {
    LowFour(value, k - 4);
    LowFour(value / 16, k - 8);
    LowFour(value / 16 / 16, k - 12);
    HexDigit(value, 0x100);
    HexDigit(value / 16, 0x10);
  }

  lemma HexDigit(value: nat, rest: nat)
    requires rest == 0x10 || rest == 0x100
    ensures value % (16 * rest) == value % 16 + 16 * (value / 16 % rest)
  {
  }

  lemma LowFour(value: nat, k: nat)
    ensures Low(value, k + 4) == value % 16 + 16 * Low(value / 16, k)
  {
    var a := value / 2;
    var b := a / 2;
    var c := b / 2;
    assert Low(value, k + 4) == value % 2 + 2 * Low(a, k + 3);
    assert Low(a, k + 3) == a % 2 + 2 * Low(b, k + 2);
    assert Low(b, k + 2) == b % 2 + 2 * Low(c, k + 1);
    assert Low(c, k + 1) == c % 2 + 2 * Low(c / 2, k);
    assert c / 2 == value / 16;
  }

  lemma ShiftedBit(value: nat, i: nat)
    ensures Bit(value / 0x1000, i) <==> Bit(value, i + HASH_BITS)
  {
    ShiftedFour(value, i + 8);
    ShiftedFour(value / 16, i + 4);
    ShiftedFour(value / 16 / 16, i);
    assert value / 16 / 16 / 16 == value / 0x1000;
  }

  lemma ShiftedFour(value: nat, i: nat)
    ensures Bit(value / 16, i) <==> Bit(value, i + 4)
  {
    var a := value / 2;
    var b := a / 2;
    var c := b / 2;
    assert Bit(value, i + 4) == Bit(a, i + 3);
    assert Bit(a, i + 3) == Bit(b, i + 2);
    assert Bit(b, i + 2) == Bit(c, i + 1);
    assert Bit(c, i + 1) == Bit(c / 2, i);
    assert c / 2 == value / 16;
  }

  /** The decoder's hash is the one of the format. */
  lemma HashIsShiftedXor(value: nat, hash: nat)
    requires hash < 0x1000
    ensures QuickLz.Hash(value) == hash <==> IsHashOf(hash, value)
  {
    var mixed := QuickLz.Xor(value / 0x1000, value);
    MixedBits(value, mixed, hash);
    AgreeingRemainders(hash, mixed, HASH_BITS);
  }

  lemma AgreeingRemainders(a: nat, b: nat, k: nat)
    requires k == HASH_BITS
    ensures Agree(a, b, k) <==> a % 0x1000 == b % 0x1000
  {
    AgreeingBits(a, b, k);
    LowIsRemainder(a, k);
    LowIsRemainder(b, k);
  }

  lemma MixedBits(value: nat, mixed: nat, hash: nat)
    requires mixed == QuickLz.Xor(value / 0x1000, value) && hash < 0x1000
    ensures IsHashOf(hash, value) <==> Agree(hash, mixed, HASH_BITS)
  {
    forall i: nat | i < HASH_BITS
      ensures SameBit(hash, mixed, i) <==> IsMixed(hash, value, i)
    {
      XorBit(value / 0x1000, value, mixed, i);
      ShiftedBit(value, i);
    }
  }

  /** The token start the format names is the one the decoder finds. */
  lemma NamedIsFound(out: seq<u8>, starts: set<nat>, hash: nat, reference: nat)
    requires hash < 0x1000 && Names(out, starts, hash, reference)
    ensures QuickLz.Lookup(out, starts, hash) == Some(reference)
  {
    CandidateHashes(out, starts, hash, reference);
    QuickLz.MostRecentIsLast(out, starts, hash, |out|, reference);
    var found := QuickLz.Lookup(out, starts, hash).value;
    CandidateHashes(out, starts, hash, found);
  }

  lemma CandidateHashes(out: seq<u8>, starts: set<nat>, hash: nat, position: nat)
    requires hash < 0x1000 && position in starts
    ensures QuickLz.Candidate(out, starts, hash, position) <==> HashesTo(out, position, hash)
  {
    if position + 3 <= |out| {
      HashIsShiftedXor(ThreeBytes(out, position), hash);
      assert QuickLz.HashAt(out, position) == QuickLz.Hash(ThreeBytes(out, position));
    }
  }

  /** Copying byte by byte is what the decoder's reference calls a periodic extension. */
  lemma {:induction false} CopiedIsPeriodic(out: seq<u8>, reference: nat, length: nat)
    requires reference < |out|
    ensures Copied(out, reference, length) == out + QuickLz.Periodic(out, reference, length)
  {
    if length > 0 {
      CopiedIsPeriodic(out, reference, length - 1);
      QuickLz.PeriodicNext(out, reference, length - 1);
    }
  }

  // ---------------------------------------------------------------- reading the bytes back

  predicate At(data: seq<u8>, source: nat, bytes: seq<u8>) {
    source + |bytes| <= |data| && data[source..source + |bytes|] == bytes
  }

  lemma AtSplit(data: seq<u8>, source: nat, first: seq<u8>, rest: seq<u8>)
    requires At(data, source, first + rest)
    ensures At(data, source, first) && At(data, source + |first|, rest)
  {
    assert (first + rest)[..|first|] == first && (first + rest)[|first|..] == rest;
    assert data[source..source + |first + rest|][..|first|] == data[source..source + |first|];
    assert data[source..source + |first + rest|][|first|..] == data[source + |first|..source + |first| + |rest|];
  }

  lemma AtByte(data: seq<u8>, source: nat, bytes: seq<u8>, i: nat)
    requires At(data, source, bytes) && i < |bytes|
    ensures data[source + i] == bytes[i]
  {
    assert data[source..source + |bytes|][i] == data[source + i];
  }

  lemma Reads16(data: seq<u8>, source: nat, value: u16)
    requires At(data, source, Bytes16(value))
    ensures QuickLz.Available(data, source, 2) && QuickLz.U16Little(data, source) == value
  {
    AtByte(data, source, Bytes16(value), 0);
    AtByte(data, source, Bytes16(value), 1);
  }

  lemma Reads32(data: seq<u8>, source: nat, value: u32)
    requires At(data, source, Bytes32(value))
    ensures QuickLz.Available(data, source, 4) && QuickLz.U32Little(data, source) == value
  {
    AtSplit(data, source, Bytes16(value % 0x1_0000), Bytes16(value / 0x1_0000));
    Reads16(data, source, value % 0x1_0000);
    Reads16(data, source + 2, value / 0x1_0000);
  }

  lemma ReadsMatch(data: seq<u8>, source: nat, token: Token)
    requires token.Match? && token.Encodable() && At(data, source, token.Bytes())
    ensures QuickLz.ReadMatch(data, source) == Ok(QuickLz.Match(token.hash, token.length, source + |token.Bytes()|))
  {
    if token.short {
      MatchFields(token.hash, token.length - 2);
      Reads16(data, source, token.hash * 16 + (token.length - 2));
    } else {
      MatchFields(token.hash, 0);
      AtSplit(data, source, Bytes16(token.hash * 16), [token.length]);
      Reads16(data, source, token.hash * 16);
      AtByte(data, source + 2, [token.length], 0);
    }
  }

  lemma MatchFields(hash: nat, low: nat)
    requires hash < 0x1000 && low < 16
    ensures (hash * 16 + low) % 16 == low && (hash * 16 + low) / 16 % 4096 == hash
  {
  }

  // ---------------------------------------------------------------- the decoder's steps

  /** Every token makes the output longer. */
  lemma TokenGrows(tokens: seq<Token>, outs: seq<seq<u8>>, k: nat)
    requires AllEncodable(tokens) && Expands(tokens, outs) && k < |tokens|
    ensures |outs[k + 1]| == |outs[k]| + tokens[k].Width()
    ensures Grows(tokens[k], outs[k], Starts(outs, k), outs[k + 1])
    ensures Starts(outs, k + 1) == Starts(outs, k) + {|outs[k]|}
  {
    assert ExpandsAt(tokens, outs, k);
  }

  lemma {:induction false} OutputGrows(tokens: seq<Token>, outs: seq<seq<u8>>, k: nat)
    requires AllEncodable(tokens) && Expands(tokens, outs) && k <= |tokens|
    ensures |outs[k]| <= |outs[|tokens|]| && (k < |tokens| ==> |outs[k]| + tokens[k].Width() <= |outs[|tokens|]|)
    decreases |tokens| - k
  {
    if k < |tokens| {
      TokenGrows(tokens, outs, k);
      OutputGrows(tokens, outs, k + 1);
    }
  }

  /** The flags of literals alone are the sentinel alone. */
  lemma {:induction false} WordOfLiterals(tokens: seq<Token>, k: nat, n: nat)
    requires AllLiteral(tokens, k)
    ensures Word(tokens, k, n) == PowerOfTwo(n)
    decreases n
  {
    if n > 0 {
      WordOfLiterals(tokens, k + 1, n - 1);
    }
  }

  /** At a control word the decoder goes on with the flags of the next tokens. */
  lemma WordRead(tokens: seq<Token>, k: nat, data: seq<u8>, source: nat, word: nat)
    requires AllEncodable(tokens) && k < |tokens| && At(data, source, Stream(tokens, k, 0))
    requires word == Word(tokens, k, TOKENS_PER_WORD)
    ensures 0x8000_0000 <= word < 0x1_0000_0000 && At(data, source, Bytes32(word))
    ensures At(data, source + 4, Stream(tokens, k, TOKENS_PER_WORD))
  {
    WordFits(tokens, k);
    var rest := Stream(tokens, k, TOKENS_PER_WORD);
    assert Stream(tokens, k, 0) == Bytes32(word) + rest;
    AtSplit(data, source, Bytes32(word), rest);
  }

  /** Otherwise the lowest flag and the next bytes are those of the next token. */
  lemma TokenRead(tokens: seq<Token>, k: nat, n: nat, data: seq<u8>, source: nat)
    requires AllEncodable(tokens) && k < |tokens| && n > 0 && At(data, source, Stream(tokens, k, n))
    ensures At(data, source, tokens[k].Bytes())
    ensures At(data, source + |tokens[k].Bytes()|, Stream(tokens, k + 1, n - 1))
    ensures Word(tokens, k, n) % 2 == tokens[k].Flag() && Word(tokens, k, n) / 2 == Word(tokens, k + 1, n - 1)
    ensures Word(tokens, k, n) != 1
    ensures tokens[k].Literal? ==> QuickLz.Available(data, source, 1) && data[source] == tokens[k].value
  {
    AtSplit(data, source, tokens[k].Bytes(), Stream(tokens, k + 1, n - 1));
    assert Word(tokens, k + 1, n - 1) >= PowerOfTwo(n - 1) >= 1;
    if tokens[k].Literal? {
      AtByte(data, source, tokens[k].Bytes(), 0);
    }
  }

  lemma SmallWord(tokens: seq<Token>, k: nat, n: nat)
    requires n <= TOKENS_PER_WORD
    ensures Word(tokens, k, n) < 0x1_0000_0000
  {
    FullWord();
    PowersGrow(n, TOKENS_PER_WORD);
  }

  lemma {:induction false} PowersGrow(n: nat, m: nat)
    requires n <= m
    ensures PowerOfTwo(n) <= PowerOfTwo(m)
    decreases m
  {
    if n < m {
      PowersGrow(n, m - 1);
    }
  }

  /** A match is applied as the format says. */
  lemma MatchApplied(token: Token, out: seq<u8>, starts: set<nat>, grown: seq<u8>, source: nat, size: nat)
    requires token.Match? && token.hash < 0x1000 && Grows(token, out, starts, grown) && |out| + token.length <= size
    ensures QuickLz.ApplyMatch(out, starts, QuickLz.Match(token.hash, token.length, source), size) == Ok(grown)
  {
    var reference: nat :|
      reference < |out| && Names(out, starts, token.hash, reference) && grown == Copied(out, reference, token.length);
    NamedIsFound(out, starts, token.hash, reference);
    CopiedIsPeriodic(out, reference, token.length);
  }

  // ---------------------------------------------------------------- whole blocks read back

  /** Every header written is read as it was meant. */
  lemma HeaderRead(spare: nat, long: bool, compressed: bool, size: nat, body: seq<u8>)
    requires spare < 4 && SizesFit(long, |body|, size)
    ensures var block := Block(spare, long, compressed, size, body);
            && |block| >= 3 && QuickLz.HeaderSize(block) == (if long then 9 else 3)
            && |block| == QuickLz.HeaderSize(block) + |body| && At(block, QuickLz.HeaderSize(block), body)
            && QuickLz.DeclaredCompressed(block) == |block| && QuickLz.DeclaredSize(block) == size
            && block[0] == FlagByte(spare, long, compressed)
  {
    var block := Block(spare, long, compressed, size, body);
    FlagParts(spare, long, compressed);
    if long {
      var sizes := Bytes32(9 + |body|) + Bytes32(size);
      assert block == [block[0]] + (sizes + body);
      assert At(block, 1, sizes + body);
      AtSplit(block, 1, sizes, body);
      AtSplit(block, 1, Bytes32(9 + |body|), Bytes32(size));
      Reads32(block, 1, 9 + |body|);
      Reads32(block, 5, size);
    } else {
      assert block[1] == 3 + |body| && block[2] == size;
      assert block[3..] == body;
    }
  }

  /** A block that is accepted by its header is one that could have been written, and says truly whether it is compressed. */
  lemma AcceptedIsABlock(data: seq<u8>, maximum: nat)
    requires QuickLz.CheckHeader(data, maximum).Ok?
    ensures var long, compressed := QuickLz.HeaderSize(data) == 9, QuickLz.CheckHeader(data, maximum).value;
            var size, body := QuickLz.DeclaredSize(data), data[QuickLz.HeaderSize(data)..];
            && size <= maximum && (if compressed then size > 0 else size == |body|)
            && SizesFit(long, |body|, size) && data == Block(data[0] / 64, long, compressed, size, body)
  {
    var long, compressed := QuickLz.HeaderSize(data) == 9, QuickLz.CheckHeader(data, maximum).value;
    var size, body := QuickLz.DeclaredSize(data), data[QuickLz.HeaderSize(data)..];
    FlagsAreParts(data[0], long, compressed);
    if long {
      Writes32(data, 1, |data|);
      Writes32(data, 5, size);
      assert data == data[..1] + data[1..5] + data[5..9] + body;
      assert Block(data[0] / 64, long, compressed, size, body) == [data[0]] + (Bytes32(|data|) + Bytes32(size)) + body;
    } else {
      assert data == [data[0]] + [3 + |body|, size] + body;
    }
  }

  lemma FlagsAreParts(flags: u8, long: bool, compressed: bool)
    requires flags / 4 % 4 == 1 && flags / 16 % 4 == 0 && long == HasBit(flags, 2) && compressed == HasBit(flags, 1)
    ensures flags / 64 < 4 && flags == FlagByte(flags / 64, long, compressed)
  {
  }

  lemma Writes32(data: seq<u8>, source: nat, value: nat)
    requires QuickLz.Available(data, source, 4) && value == QuickLz.U32Little(data, source)
    ensures data[source..source + 4] == Bytes32(value)
  {
    var low, high := QuickLz.U16Little(data, source), QuickLz.U16Little(data, source + 2);
    Halves(low, high, 0x1_0000);
    Halves(data[source], data[source + 1], 0x100);
    Halves(data[source + 2], data[source + 3], 0x100);
  }

  lemma Halves(low: nat, high: nat, base: nat)
    requires low < base && (base == 0x100 || base == 0x1_0000)
    ensures (low + base * high) % base == low && (low + base * high) / base == high
  {
  }

  lemma FlagParts(spare: nat, long: bool, compressed: bool)
    requires spare < 4
    ensures var flags := FlagByte(spare, long, compressed);
            && (HasBit(flags, 1) <==> compressed) && (HasBit(flags, 2) <==> long)
            && flags / 4 % 4 == 1 && flags / 16 % 4 == 0
  {
  }

  lemma HeaderChecked(spare: nat, long: bool, compressed: bool, size: nat, body: seq<u8>, maximum: nat)
    requires spare < 4 && SizesFit(long, |body|, size)
    ensures QuickLz.CheckHeader(Block(spare, long, compressed, size, body), maximum) ==
            if size > maximum then Err(QuickLz.ExceedsMaximum)
            else if compressed then if size == 0 then Err(QuickLz.EmptyPayload) else Ok(true)
            else if |body| != size then Err(QuickLz.InvalidUncompressedSize)
            else Ok(false)
  {
    HeaderRead(spare, long, compressed, size, body);
    FlagParts(spare, long, compressed);
  }

  /** A stored block gives its payload, if that is not too long. */
  lemma StoredBlockIsItsPayload(spare: nat, long: bool, payload: seq<u8>, maximum: nat)
    requires spare < 4 && SizesFit(long, |payload|, |payload|)
    ensures QuickLz.Decompressed(Block(spare, long, false, |payload|, payload), maximum)
         == if |payload| <= maximum then Ok(payload) else Err(QuickLz.ExceedsMaximum)
  {
    HeaderRead(spare, long, false, |payload|, payload);
    HeaderChecked(spare, long, false, |payload|, payload, maximum);
  }
}
