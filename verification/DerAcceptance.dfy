/** Exactly which bytes the reader accepts as a public key, and as which point. */
module DerAcceptance {
  import opened Basics
  import opened DerKeys

  /** A length: one byte below 128; or the number of bytes, one to eight, and the value in as many bytes. */
  ghost predicate LengthForm(form: seq<u8>, n: nat) {
    || (|form| == 1 && form[0] < 0x80 && n == form[0])
    || (1 < |form| <= 9 && form[0] == 0x80 + (|form| - 1) && n == BigEndian(form[1..]))
  }

  /** A field: its tag, a form of its length, its content. */
  ghost predicate FieldForm(bytes: seq<u8>, tag: u8, content: seq<u8>) {
    exists form {:trigger LengthForm(form, |content|)} :: LengthForm(form, |content|) && bytes == [tag] + form + content
  }

  /** The fields a key is made of, and the integers in the last two. */
  datatype Parts = Parts(marker: seq<u8>, size: seq<u8>, xField: seq<u8>, yField: seq<u8>, x: seq<u8>, y: seq<u8>) {
    function Body(): seq<u8> {
      marker + size + xField + yField
    }
  }

  /** A marker of one zero bit, the key size and two coordinates, in a sequence with nothing after it. */
  ghost predicate MadeOf(encoded: seq<u8>, parts: Parts) {
    && FieldForm(encoded, 0x30, parts.Body())
    && FieldForm(parts.marker, 0x03, [0x07, 0x00]) && FieldForm(parts.size, 0x02, [0x20])
    && FieldForm(parts.xField, 0x02, parts.x) && FieldForm(parts.yField, 0x02, parts.y)
  }

  /** A non-negative integer that fits a coordinate. */
  predicate IsCoordinate(integer: seq<u8>) {
    integer != [] && integer[0] < 0x80 && BigEndian(integer) < Power256(COORDINATE_SIZE)
  }

  function PointOf(parts: Parts): seq<u8> {
    Point(FixedBytes(BigEndian(parts.x), COORDINATE_SIZE), FixedBytes(BigEndian(parts.y), COORDINATE_SIZE))
  }

  // ---------------------------------------------------------------- lengths and fields

  lemma LengthTaken(data: seq<u8>, offset: nat)
    requires TakeLength(data, offset).Ok?
    ensures var taken := TakeLength(data, offset).value;
            offset < taken.next <= |data| && LengthForm(data[offset..taken.next], taken.value)
  {
    var taken := TakeLength(data, offset).value;
    assert data[offset..taken.next][1..] == data[offset + 1..taken.next];
  }

  lemma LengthRead(data: seq<u8>, offset: nat, end: nat, n: nat)
    requires offset < end <= |data| && LengthForm(data[offset..end], n)
    ensures TakeLength(data, offset) == Ok(Taken(n, end))
  {
    assert data[offset..end][1..] == data[offset + 1..end];
  }

  /** What is taken as a field is a field. */
  lemma FieldTaken(data: seq<u8>, offset: nat, tag: u8)
    requires TakeField(data, offset, tag).Ok?
    ensures var taken := TakeField(data, offset, tag).value;
            offset < taken.next <= |data| && FieldForm(data[offset..taken.next], tag, taken.value)
  {
    LengthTaken(data, offset + 1);
    var length := TakeLength(data, offset + 1).value;
    var taken := TakeField(data, offset, tag).value;
    var form := data[offset + 1..length.next];
    assert LengthForm(form, |taken.value|);
    assert data[offset..taken.next] == [tag] + form + taken.value;
  }

  /** Every field is taken as one. */
  lemma FieldRead(data: seq<u8>, before: seq<u8>, field: seq<u8>, after: seq<u8>, tag: u8, content: seq<u8>)
    requires FieldForm(field, tag, content) && data == before + field + after
    ensures TakeField(data, |before|, tag) == Ok(Taken(content, |before| + |field|))
  {
    var form :| LengthForm(form, |content|) && field == [tag] + form + content;
    var start := |before| + 1;
    assert data[|before|] == tag;
    assert data[start..start + |form|] == form;
    LengthRead(data, start, start + |form|, |content|);
    assert data[start + |form|..start + |form| + |content|] == content;
  }

  // ---------------------------------------------------------------- keys

  /** The four fields of a body, one after the other. */
  ghost predicate InFields(body: seq<u8>, m: Taken<seq<u8>>, s: Taken<seq<u8>>, x: Taken<seq<u8>>, y: Taken<seq<u8>>) {
    && TakeField(body, 0, 0x03) == Ok(m) && TakeField(body, m.next, 0x02) == Ok(s)
    && TakeField(body, s.next, 0x02) == Ok(x) && TakeField(body, x.next, 0x02) == Ok(y)
    && m.value == [0x07, 0x00] && s.value == [0x20] && y.next == |body|
  }

  lemma FieldsTaken(body: seq<u8>) returns (m: Taken<seq<u8>>, s: Taken<seq<u8>>, x: Taken<seq<u8>>, y: Taken<seq<u8>>)
    requires ParsedBody(body).Ok?
    ensures InFields(body, m, s, x, y)
  {
    m := TakeField(body, 0, 0x03).value;
    s := TakeField(body, m.next, 0x02).value;
    x := TakeField(body, s.next, 0x02).value;
    y := TakeField(body, x.next, 0x02).value;
  }

  lemma FieldsParsed(body: seq<u8>, m: Taken<seq<u8>>, s: Taken<seq<u8>>, x: Taken<seq<u8>>, y: Taken<seq<u8>>)
    requires InFields(body, m, s, x, y)
    ensures ParsedBody(body) == ParsedPoint(x.value, y.value)
  {
  }

  lemma FourSlices(body: seq<u8>, a: nat, b: nat, c: nat)
    requires a <= b <= c <= |body|
    ensures body == body[0..a] + body[a..b] + body[b..c] + body[c..|body|]
  {
  }

  lemma BodyMadeOf(body: seq<u8>) returns (parts: Parts)
    requires ParsedBody(body).Ok?
    ensures body == parts.Body()
    ensures FieldForm(parts.marker, 0x03, [0x07, 0x00]) && FieldForm(parts.size, 0x02, [0x20])
    ensures FieldForm(parts.xField, 0x02, parts.x) && FieldForm(parts.yField, 0x02, parts.y)
    ensures ParsedBody(body) == ParsedPoint(parts.x, parts.y)
  {
    var m, s, x, y := FieldsTaken(body);
    FieldsParsed(body, m, s, x, y);
    FieldTaken(body, 0, 0x03);
    FieldTaken(body, m.next, 0x02);
    FieldTaken(body, s.next, 0x02);
    FieldTaken(body, x.next, 0x02);
    parts := Parts(body[0..m.next], body[m.next..s.next], body[s.next..x.next], body[x.next..y.next], x.value, y.value);
    FourSlices(body, m.next, s.next, x.next);
  }

  lemma MarkerRead(body: seq<u8>, parts: Parts)
    requires FieldForm(parts.marker, 0x03, [0x07, 0x00]) && body == parts.Body()
    ensures TakeField(body, 0, 0x03) == Ok(Taken([0x07, 0x00], |parts.marker|))
  {
    var after := parts.size + parts.xField + parts.yField;
    assert body == [] + parts.marker + after;
    FieldRead(body, [], parts.marker, after, 0x03, [0x07, 0x00]);
  }

  lemma SizeRead(body: seq<u8>, parts: Parts)
    requires FieldForm(parts.size, 0x02, [0x20]) && body == parts.Body()
    ensures TakeField(body, |parts.marker|, 0x02) == Ok(Taken([0x20], |parts.marker| + |parts.size|))
  {
    var after := parts.xField + parts.yField;
    assert body == parts.marker + parts.size + after;
    FieldRead(body, parts.marker, parts.size, after, 0x02, [0x20]);
  }

  lemma XRead(body: seq<u8>, parts: Parts)
    requires FieldForm(parts.xField, 0x02, parts.x) && body == parts.Body()
    ensures var start := |parts.marker| + |parts.size|;
            TakeField(body, start, 0x02) == Ok(Taken(parts.x, start + |parts.xField|))
  {
    FieldRead(body, parts.marker + parts.size, parts.xField, parts.yField, 0x02, parts.x);
  }

  lemma YRead(body: seq<u8>, parts: Parts)
    requires FieldForm(parts.yField, 0x02, parts.y) && body == parts.Body()
    ensures var start := |parts.marker| + |parts.size| + |parts.xField|;
            TakeField(body, start, 0x02) == Ok(Taken(parts.y, |body|))
  {
    assert body == parts.marker + parts.size + parts.xField + parts.yField + [];
    FieldRead(body, parts.marker + parts.size + parts.xField, parts.yField, [], 0x02, parts.y);
  }

  lemma BodyRead(body: seq<u8>, parts: Parts)
    requires FieldForm(parts.marker, 0x03, [0x07, 0x00]) && FieldForm(parts.size, 0x02, [0x20])
    requires FieldForm(parts.xField, 0x02, parts.x) && FieldForm(parts.yField, 0x02, parts.y)
    requires body == parts.Body()
    ensures ParsedBody(body) == ParsedPoint(parts.x, parts.y)
  {
    MarkerRead(body, parts);
    SizeRead(body, parts);
    XRead(body, parts);
    YRead(body, parts);
    var second := |parts.marker| + |parts.size|;
    var third := second + |parts.xField|;
    FieldsParsed(body, Taken([0x07, 0x00], |parts.marker|), Taken([0x20], second), Taken(parts.x, third), Taken(parts.y, |body|));
  }

  lemma PointParsed(parts: Parts, point: seq<u8>)
    ensures ParsedPoint(parts.x, parts.y) == Ok(point) <==> IsCoordinate(parts.x) && IsCoordinate(parts.y) && point == PointOf(parts)
  {
  }

  lemma KeyMadeOf(encoded: seq<u8>) returns (parts: Parts)
    requires ParsedKey(encoded).Ok?
    ensures MadeOf(encoded, parts) && ParsedKey(encoded) == ParsedPoint(parts.x, parts.y)
  {
    FieldTaken(encoded, 0, 0x30);
    assert encoded[0..|encoded|] == encoded;
    parts := BodyMadeOf(TakeField(encoded, 0, 0x30).value.value);
  }

  lemma KeyRead(encoded: seq<u8>, parts: Parts)
    requires MadeOf(encoded, parts)
    ensures ParsedKey(encoded) == ParsedPoint(parts.x, parts.y)
  {
    FieldRead(encoded, [], encoded, [], 0x30, parts.Body());
    BodyRead(parts.Body(), parts);
  }

  /**
   Bytes are read as a point if and only if they are made of the fields of a key,
   their lengths in whatever form, and the point is that of their two coordinates.
   */
  lemma KeyIfAndOnlyIfMadeOf(encoded: seq<u8>, point: seq<u8>)
    ensures ParsedKey(encoded) == Ok(point) <==>
            exists parts :: MadeOf(encoded, parts) && IsCoordinate(parts.x) && IsCoordinate(parts.y) && point == PointOf(parts)
  {
    if ParsedKey(encoded) == Ok(point) {
      var parts := KeyMadeOf(encoded);
      PointParsed(parts, point);
    }
    if parts :| MadeOf(encoded, parts) && IsCoordinate(parts.x) && IsCoordinate(parts.y) && point == PointOf(parts) {
      KeyRead(encoded, parts);
      PointParsed(parts, point);
    }
  }
}
