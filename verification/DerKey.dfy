/** The public key format: writing two coordinates as DER fields and reading them back. */
module DerKeys {
  import opened Basics

  datatype Error =
    | UnsupportedLength | UnexpectedEnd | UnexpectedTag | TrailingData
    | InvalidMarker | InvalidKeySize | UnexpectedFields
    | EmptyCoordinate | NegativeCoordinate | CoordinateTooLarge

  // ---------------------------------------------------------------- numbers as bytes

  function Power256(k: nat): nat {
    if k == 0 then 1 else 256 * Power256(k - 1)
  }

  function BigEndian(bytes: seq<u8>): nat {
    if bytes == [] then 0 else 256 * BigEndian(bytes[..|bytes| - 1]) + bytes[|bytes| - 1]
  }

  /** The shortest bytes of a number; none for zero. */
  function Bytes(n: nat): seq<u8> {
    if n == 0 then [] else Bytes(n / 256) + [n % 256]
  }

  /** The last `k` bytes of a number. */
  function FixedBytes(n: nat, k: nat): seq<u8>
    decreases k
  {
    if k == 0 then [] else FixedBytes(n / 256, k - 1) + [n % 256]
  }

  lemma {:induction false} BytesValue(n: nat)
    ensures BigEndian(Bytes(n)) == n && (n > 0 ==> Bytes(n) != [] && Bytes(n)[0] != 0)
  {
    if n > 0 {
      BytesValue(n / 256);
      assert Bytes(n)[..|Bytes(n)| - 1] == Bytes(n / 256);
    }
  }

  lemma {:induction false} BytesSize(n: nat, k: nat)
    requires n < Power256(k)
    ensures |Bytes(n)| <= k
    decreases k
  {
    if n > 0 {
      BytesSize(n / 256, k - 1);
    }
  }

  lemma {:induction false} FixedBytesValue(bytes: seq<u8>)
    ensures FixedBytes(BigEndian(bytes), |bytes|) == bytes
  {
    if bytes != [] {
      FixedBytesValue(bytes[..|bytes| - 1]);
      assert bytes == bytes[..|bytes| - 1] + [bytes[|bytes| - 1]];
    }
  }

  lemma {:induction false} ValueFits(bytes: seq<u8>)
    ensures BigEndian(bytes) < Power256(|bytes|)
    ensures bytes != [] && bytes[0] != 0 ==> BigEndian(bytes) >= Power256(|bytes| - 1)
  {
    if bytes != [] {
      ValueFits(bytes[..|bytes| - 1]);
    }
  }

  lemma {:induction false} PowerGrows(j: nat, k: nat)
    requires j <= k
    ensures 1 <= Power256(j) <= Power256(k)
    decreases k
  {
    if j < k {
      PowerGrows(j, k - 1);
    } else if k > 0 {
      PowerGrows(k - 1, k - 1);
    }
  }

  function Zeros(k: nat): seq<u8> {
    if k == 0 then [] else [0] + Zeros(k - 1)
  }

  lemma {:induction false} LeadingZero(bytes: seq<u8>)
    ensures BigEndian([0] + bytes) == BigEndian(bytes)
  {
    var padded := [0] + bytes;
    if bytes == [] {
      assert padded[..0] == [];
    } else {
      assert padded[..|bytes|] == [0] + bytes[..|bytes| - 1];
      LeadingZero(bytes[..|bytes| - 1]);
    }
  }

  lemma {:induction false} LeadingZeros(k: nat, bytes: seq<u8>)
    ensures |Zeros(k)| == k && BigEndian(Zeros(k) + bytes) == BigEndian(bytes)
  {
    if k == 0 {
      assert [] + bytes == bytes;
    } else {
      LeadingZeros(k - 1, bytes);
      LeadingZero(Zeros(k - 1) + bytes);
      assert Zeros(k) + bytes == [0] + (Zeros(k - 1) + bytes);
    }
  }

  // ---------------------------------------------------------------- writing

  /** The content of an integer field: a leading zero keeps it positive. */
  function Content(n: nat): seq<u8> {
    if n == 0 then [0]
    else
      BytesValue(n);
      if Bytes(n)[0] >= 0x80 then [0] + Bytes(n) else Bytes(n)
  }

  lemma ContentReads(n: nat, k: nat)
    requires n < Power256(k)
    ensures 1 <= |Content(n)| <= k + 1 && Content(n)[0] < 0x80 && BigEndian(Content(n)) == n
  {
    BytesValue(n);
    BytesSize(n, k);
    LeadingZero(Bytes(n));
    assert n == 0 ==> Content(n) == [0] + Bytes(n);
  }

  function Field(tag: u8, content: seq<u8>): seq<u8>
    requires |content| < 0x80
  {
    [tag, |content|] + content
  }

  /** A field written piece by piece, with and without a leading zero. */
  lemma FieldJoins(output: seq<u8>, tag: u8, bytes: seq<u8>)
    ensures |bytes| < 0x80 ==> output + [tag] + [|bytes|] + bytes == output + Field(tag, bytes)
    ensures |bytes| + 1 < 0x80 ==> output + [tag] + [|bytes| + 1] + [0] + bytes == output + Field(tag, [0] + bytes)
  {
  }

  /** The bytes of a coordinate. */
  const COORDINATE_SIZE: nat := 32

  const HEADER: seq<u8> := [0x03, 0x02, 0x07, 0x00, 0x02, 0x01, 0x20]

  method WriteDerLength(output: seq<u8>, length: nat) returns (r: Result<seq<u8>, Error>)
    ensures r == if length < 0x80 then Ok(output + [length]) else Err(UnsupportedLength)
  {
    if length >= 0x80 {
      return Err(UnsupportedLength);
    }
    return Ok(output + [length]);
  }

  method WriteDerInteger(output: seq<u8>, value: nat) returns (r: Result<seq<u8>, Error>)
    ensures r == if |Content(value)| < 0x80 then Ok(output + Field(0x02, Content(value))) else Err(UnsupportedLength)
  {
    if value == 0 {
      FieldJoins(output, 0x02, [0x00]);
      return Ok(output + [0x02] + [0x01] + [0x00]);
    }
    var buffer := Bytes(value);
    BytesValue(value);
    var needsPadding := buffer[0] >= 0x80;
    var header := WriteDerLength(output + [0x02], |buffer| + if needsPadding then 1 else 0);
    if header.Err? {
      return Err(header.error);
    }
    var result := header.value;
    if needsPadding {
      result := result + [0x00];
    }
    ghost var start := result;
    for i := 0 to |buffer|
      invariant result == start + buffer[..i]
    {
      result := result + [buffer[i]];
    }
    assert buffer[..|buffer|] == buffer;
    FieldJoins(output, 0x02, buffer);
    return Ok(result);
  }

  function KeyBody(x: nat, y: nat): seq<u8>
    requires |Content(x)| < 0x80 && |Content(y)| < 0x80
  {
    HEADER + Field(0x02, Content(x)) + Field(0x02, Content(y))
  }

  /** Two coordinates below 2 to the power 256 always fit the short form of lengths. */
  lemma KeyBodyFits(x: nat, y: nat)
    requires x < Power256(COORDINATE_SIZE) && y < Power256(COORDINATE_SIZE)
    ensures |Content(x)| <= 33 && |Content(y)| <= 33 && |KeyBody(x, y)| < 0x80
  {
    ContentReads(x, COORDINATE_SIZE);
    ContentReads(y, COORDINATE_SIZE);
  }

  function EncodedKey(x: nat, y: nat): seq<u8>
    requires x < Power256(COORDINATE_SIZE) && y < Power256(COORDINATE_SIZE)
  {
    KeyBodyFits(x, y);
    Field(0x30, KeyBody(x, y))
  }

  method PublicKey(x: nat, y: nat) returns (r: Result<seq<u8>, Error>)
    requires x < Power256(COORDINATE_SIZE) && y < Power256(COORDINATE_SIZE)
    ensures r == Ok(EncodedKey(x, y))
  {
    KeyBodyFits(x, y);
    var withX := WriteDerInteger(HEADER, x);
    var withY := WriteDerInteger(withX.value, y);
    var body := withY.value;
    var result := WriteDerLength([0x30], |body|);
    assert [0x30] + [|body|] + body == Field(0x30, body);
    return Ok(result.value + body);
  }

  // ---------------------------------------------------------------- reading

  datatype Taken<T> = Taken(value: T, next: nat)

  /** A length: one byte, or up to eight bytes after their number. */
  function TakeLength(data: seq<u8>, offset: nat): Result<Taken<nat>, Error> {
    if offset >= |data| then Err(UnexpectedEnd)
    else if data[offset] < 0x80 then Ok(Taken(data[offset], offset + 1))
    else
      var count := data[offset] - 0x80;
      if count == 0 || count > 8 then Err(UnsupportedLength)
      else if offset + 1 + count > |data| then Err(UnexpectedEnd)
      else Ok(Taken(BigEndian(data[offset + 1..offset + 1 + count]), offset + 1 + count))
  }

  function TakeField(data: seq<u8>, offset: nat, tag: u8): Result<Taken<seq<u8>>, Error> {
    if offset >= |data| then Err(UnexpectedEnd)
    else if data[offset] != tag then Err(UnexpectedTag)
    else match TakeLength(data, offset + 1)
      case Err(e) => Err(e)
      case Ok(length) =>
        if length.next + length.value > |data| then Err(UnexpectedEnd)
        else Ok(Taken(data[length.next..length.next + length.value], length.next + length.value))
  }

  class DerReader {
    const data: seq<u8>
    var offset: nat

    ghost predicate Valid()
      reads this
    {
      offset <= |data|
    }

    constructor (data: seq<u8>)
      ensures this.data == data && offset == 0 && Valid()
    {
      this.data, offset := data, 0;
    }

    predicate Has(count: nat)
      requires Valid()
      reads this
    {
      count <= |data| - offset
    }

    predicate Empty()
      reads this
    {
      offset == |data|
    }

    method ReadLength() returns (r: Result<nat, Error>)
      requires Valid()
      modifies this
      ensures Valid()
      ensures match TakeLength(data, old(offset))
              case Err(e) => r == Err(e)
              case Ok(taken) => r == Ok(taken.value) && offset == taken.next
    {
      if !Has(1) {
        return Err(UnexpectedEnd);
      }
      var first := data[offset];
      offset := offset + 1;
      if first < 0x80 {
        return Ok(first);
      }
      var count := first - 0x80;
      if count == 0 || count > 8 {
        return Err(UnsupportedLength);
      }
      if !Has(count) {
        return Err(UnexpectedEnd);
      }
      var result := 0;
      ghost var start := offset;
      for i := 0 to count
        invariant offset == start + i && result == BigEndian(data[start..start + i])
      {
        BigEndianGrows(data, start, i);
        result := ShiftedIn(result, data[offset]);
        offset := offset + 1;
      }
      return Ok(result);
    }

    method Read(expectedTag: u8) returns (r: Result<seq<u8>, Error>)
      requires Valid()
      modifies this
      ensures Valid()
      ensures match TakeField(data, old(offset), expectedTag)
              case Err(e) => r == Err(e)
              case Ok(taken) => r == Ok(taken.value) && offset == taken.next
    {
      if !Has(1) {
        return Err(UnexpectedEnd);
      }
      var tag := data[offset];
      offset := offset + 1;
      if tag != expectedTag {
        return Err(UnexpectedTag);
      }
      var length := ReadLength();
      if length.Err? {
        return Err(length.error);
      }
      if !Has(length.value) {
        return Err(UnexpectedEnd);
      }
      var result := data[offset..offset + length.value];
      offset := offset + length.value;
      return Ok(result);
    }
  }

  /** A 64-bit value shifted left by a byte, with the next byte put in. */
  function ShiftedIn(value: nat, byte: u8): nat {
    (value * 0x100) % 0x1_0000_0000_0000_0000 + byte
  }

  lemma BigEndianGrows(data: seq<u8>, start: nat, i: nat)
    requires i < 8 && start + i < |data|
    ensures BigEndian(data[start..start + i + 1]) == ShiftedIn(BigEndian(data[start..start + i]), data[start + i])
  {
    var bytes, longer := data[start..start + i], data[start..start + i + 1];
    assert longer[..i] == bytes && longer[i] == data[start + i];
    ValueFits(bytes);
    PowerGrows(i, 7);
    assert Power256(7) == 0x100_0000_0000_0000;
  }

  // ---------------------------------------------------------------- coordinates

  /** A coordinate is a non-negative integer of at most 32 bytes. */
  function DecodedCoordinate(integer: seq<u8>): Result<seq<u8>, Error> {
    if integer == [] then Err(EmptyCoordinate)
    else if integer[0] >= 0x80 then Err(NegativeCoordinate)
    else if BigEndian(integer) >= Power256(COORDINATE_SIZE) then Err(CoordinateTooLarge)
    else Ok(FixedBytes(BigEndian(integer), COORDINATE_SIZE))
  }

  method DecodeCoordinate(integer: seq<u8>) returns (r: Result<seq<u8>, Error>)
    ensures r == DecodedCoordinate(integer)
  {
    if integer == [] {
      return Err(EmptyCoordinate);
    }
    if integer[0] >= 0x80 {
      return Err(NegativeCoordinate);
    }
    var stripped := StripZeros(integer);
    StrippedFits(stripped);
    if |stripped| > COORDINATE_SIZE {
      return Err(CoordinateTooLarge);
    }
    PaddedIsFixed(stripped, COORDINATE_SIZE);
    return Ok(Zeros(COORDINATE_SIZE - |stripped|) + stripped);
  }

  /** Drop leading zeros, but keep one byte. */
  method StripZeros(integer: seq<u8>) returns (stripped: seq<u8>)
    requires integer != []
    ensures stripped != [] && BigEndian(stripped) == BigEndian(integer) && (|stripped| > 1 ==> stripped[0] != 0)
  {
    stripped := integer;
    while |stripped| > 1 && stripped[0] == 0
      invariant stripped != [] && BigEndian(stripped) == BigEndian(integer)
    {
      assert stripped == [0] + stripped[1..];
      LeadingZero(stripped[1..]);
      stripped := stripped[1..];
    }
  }

  /** Without leading zeros, the number of bytes tells whether the value fits. */
  lemma StrippedFits(bytes: seq<u8>)
    requires bytes != [] && (|bytes| > 1 ==> bytes[0] != 0)
    ensures |bytes| > COORDINATE_SIZE <==> BigEndian(bytes) >= Power256(COORDINATE_SIZE)
  {
    ValueFits(bytes);
    if |bytes| > COORDINATE_SIZE {
      PowerGrows(COORDINATE_SIZE, |bytes| - 1);
    } else {
      PowerGrows(|bytes|, COORDINATE_SIZE);
    }
  }

  lemma PaddedIsFixed(bytes: seq<u8>, width: nat)
    requires |bytes| <= width
    ensures Zeros(width - |bytes|) + bytes == FixedBytes(BigEndian(bytes), width)
  {
    LeadingZeros(width - |bytes|, bytes);
    FixedBytesValue(Zeros(width - |bytes|) + bytes);
  }

  // ---------------------------------------------------------------- keys

  /** The uncompressed point of two coordinates. */
  function Point(x: seq<u8>, y: seq<u8>): seq<u8> {
    [0x04] + x + y
  }

  function ParsedBody(body: seq<u8>): Result<seq<u8>, Error> {
    match TakeField(body, 0, 0x03)
    case Err(e) => Err(e)
    case Ok(marker) =>
      if marker.value != [0x07, 0x00] then Err(InvalidMarker) else
      match TakeField(body, marker.next, 0x02)
      case Err(e) => Err(e)
      case Ok(size) =>
        if size.value != [0x20] then Err(InvalidKeySize) else
        match TakeField(body, size.next, 0x02)
        case Err(e) => Err(e)
        case Ok(x) =>
          match TakeField(body, x.next, 0x02)
          case Err(e) => Err(e)
          case Ok(y) => if y.next != |body| then Err(UnexpectedFields) else ParsedPoint(x.value, y.value)
  }

  function ParsedPoint(x: seq<u8>, y: seq<u8>): Result<seq<u8>, Error> {
    match DecodedCoordinate(x)
    case Err(e) => Err(e)
    case Ok(x') =>
      match DecodedCoordinate(y)
      case Err(e) => Err(e)
      case Ok(y') => Ok(Point(x', y'))
  }

  function ParsedKey(encoded: seq<u8>): Result<seq<u8>, Error> {
    match TakeField(encoded, 0, 0x30)
    case Err(e) => Err(e)
    case Ok(body) => if body.next != |encoded| then Err(TrailingData) else ParsedBody(body.value)
  }

  method ParseBody(body: seq<u8>) returns (r: Result<seq<u8>, Error>)
    ensures r == ParsedBody(body)
  {
    var reader := new DerReader(body);
    var marker := reader.Read(0x03);
    if marker.Err? {
      return Err(marker.error);
    }
    if |marker.value| != 2 || marker.value[0] != 0x07 || marker.value[1] != 0x00 {
      return Err(InvalidMarker);
    }
    var keySize := reader.Read(0x02);
    if keySize.Err? {
      return Err(keySize.error);
    }
    if |keySize.value| != 1 || keySize.value[0] != 0x20 {
      return Err(InvalidKeySize);
    }
    var xInteger := reader.Read(0x02);
    if xInteger.Err? {
      return Err(xInteger.error);
    }
    var yInteger := reader.Read(0x02);
    if yInteger.Err? {
      return Err(yInteger.error);
    }
    if !reader.Empty() {
      return Err(UnexpectedFields);
    }
    var x := DecodeCoordinate(xInteger.value);
    if x.Err? {
      return Err(x.error);
    }
    var y := DecodeCoordinate(yInteger.value);
    if y.Err? {
      return Err(y.error);
    }
    return Ok(Point(x.value, y.value));
  }

  method ParsePublicKey(encoded: seq<u8>) returns (r: Result<seq<u8>, Error>)
    ensures r == ParsedKey(encoded)
  {
    var outer := new DerReader(encoded);
    var sequence := outer.Read(0x30);
    if sequence.Err? {
      return Err(sequence.error);
    }
    if !outer.Empty() {
      return Err(TrailingData);
    }
    r := ParseBody(sequence.value);
  }

  // ---------------------------------------------------------------- reading undoes writing

  lemma FieldReads(before: seq<u8>, tag: u8, content: seq<u8>, rest: seq<u8>)
    requires |content| < 0x80
    ensures var data := before + Field(tag, content) + rest;
            TakeField(data, |before|, tag) == Ok(Taken(content, |before + Field(tag, content)|))
  {
    var data := before + Field(tag, content) + rest;
    var start := |before| + 2;
    assert data[|before|] == tag && data[|before| + 1] == |content|;
    assert data[start..start + |content|] == content;
  }

  /** A written key reads back as the point of its coordinates, each in 32 bytes. */
  lemma {:induction false} KeyRoundTrip(x: nat, y: nat)
    requires x < Power256(COORDINATE_SIZE) && y < Power256(COORDINATE_SIZE)
    ensures ParsedKey(EncodedKey(x, y)) == Ok(Point(FixedBytes(x, COORDINATE_SIZE), FixedBytes(y, COORDINATE_SIZE)))
  {
    KeyBodyFits(x, y);
    var body := KeyBody(x, y);
    FieldReads([], 0x30, body, []);
    assert [] + Field(0x30, body) + [] == EncodedKey(x, y);
    BodyReads(Content(x), Content(y));
    ContentReads(x, COORDINATE_SIZE);
    ContentReads(y, COORDINATE_SIZE);
  }

  /** The fields after the header are the two coordinates. */
  lemma {:induction false} BodyReads(x: seq<u8>, y: seq<u8>)
    requires |x| < 0x80 && |y| < 0x80
    ensures ParsedBody(HEADER + Field(0x02, x) + Field(0x02, y)) == ParsedPoint(x, y)
  {
    var fieldX, fieldY := Field(0x02, x), Field(0x02, y);
    var body := HEADER + fieldX + fieldY;
    HeaderReads(fieldX + fieldY);
    assert body == HEADER + (fieldX + fieldY);
    FieldReads(HEADER, 0x02, x, fieldY);
    FieldReads(HEADER + fieldX, 0x02, y, []);
    assert body + [] == body;
  }

  lemma HeaderReads(rest: seq<u8>)
    ensures TakeField(HEADER + rest, 0, 0x03) == Ok(Taken([0x07, 0x00], 4))
    ensures TakeField(HEADER + rest, 4, 0x02) == Ok(Taken([0x20], 7))
  {
    var data := HEADER + rest;
    assert data[2..4] == [0x07, 0x00] && data[6..7] == [0x20];
  }

  /** The bytes of a coordinate determine it, so distinct keys are written differently. */
  lemma {:induction false} FixedBytesKeepValue(n: nat, k: nat)
    requires n < Power256(k)
    ensures |FixedBytes(n, k)| == k && BigEndian(FixedBytes(n, k)) == n
    decreases k
  {
    if k > 0 {
      FixedBytesKeepValue(n / 256, k - 1);
      assert FixedBytes(n, k)[..k - 1] == FixedBytes(n / 256, k - 1);
    }
  }

  /** Whatever is accepted names a point that can be written and read again. */
  lemma {:induction false} AcceptedCoordinate(integer: seq<u8>)
    ensures DecodedCoordinate(integer).Ok? <==> integer != [] && integer[0] < 0x80 && BigEndian(integer) < Power256(COORDINATE_SIZE)
    ensures DecodedCoordinate(integer).Ok? ==> DecodedCoordinate(integer) == DecodedCoordinate(Content(BigEndian(integer)))
  {
    if DecodedCoordinate(integer).Ok? {
      ContentReads(BigEndian(integer), COORDINATE_SIZE);
    }
  }

  /** Distinct coordinates are written differently. */
  lemma EncodingIsInjective(x: nat, y: nat, x': nat, y': nat)
    requires x < Power256(COORDINATE_SIZE) && y < Power256(COORDINATE_SIZE) && x' < Power256(COORDINATE_SIZE) && y' < Power256(COORDINATE_SIZE)
    requires EncodedKey(x, y) == EncodedKey(x', y')
    ensures x == x' && y == y'
  {
    KeyRoundTrip(x, y);
    KeyRoundTrip(x', y');
    FixedBytesKeepValue(x, COORDINATE_SIZE);
    FixedBytesKeepValue(y, COORDINATE_SIZE);
    FixedBytesKeepValue(x', COORDINATE_SIZE);
    FixedBytesKeepValue(y', COORDINATE_SIZE);
    PointHasParts(FixedBytes(x, COORDINATE_SIZE), FixedBytes(y, COORDINATE_SIZE));
    PointHasParts(FixedBytes(x', COORDINATE_SIZE), FixedBytes(y', COORDINATE_SIZE));
  }

  lemma PointHasParts(x: seq<u8>, y: seq<u8>)
    requires |x| == 32
    ensures Point(x, y)[1..33] == x && Point(x, y)[33..] == y
  {
  }
}
