/** One turn of the loop that every generated `Unmarshal` runs: read a tag, check it against the
    message's known fields, read the payload or skip an unknown field. */
module Fields {
  import opened Wrappers
  import opened Varint
  import opened WireSkip

  /** Known field numbers and whether they hold a varint (wire type 0) or bytes (wire type 2). */
  datatype FieldKind = ScalarKind | BytesKind
  type Schema = map<int, FieldKind>

  datatype Token =
    | Scalar(num: int, value: uint64)
    | Chunk(num: int, payload: seq<byte>)
    | Unknown

  datatype Field = Field(token: Token, len: nat)

  datatype Tag = Tag(num: int32, wireType: nat, len: nat)

  function ReadTag(b: seq<byte>): (r: Result<Tag>)
    ensures r.Ok? ==> 1 <= r.value.len <= |b| && 0 < r.value.num && r.value.wireType < 8
  {
    var wire :- ReadVarint(b);
    var num := ToInt32(wire.value / 8);
    var wireType := wire.value % 8;
    if wireType == 4 then Err(EndGroupForNonGroup)
    else if num <= 0 then Err(IllegalTag(num, wire.value))
    else Ok(Tag(num, wireType, wire.len))
  }

  /** The bounds of a length-delimited payload: [start, end) within b. */
  datatype Span = Span(start: nat, end: nat)

  /** `b` is what is left of a buffer whose first `base` bytes are read. `base` matters only for the
      test that index plus length still fits an int64. */
  function ReadLength(b: seq<byte>, base: nat): (r: Result<Span>)
    ensures r.Ok? ==> 1 <= r.value.start <= r.value.end <= |b|
  {
    var length :- ReadVarint(b);
    var end := length.len + length.value;
    if length.value >= TWO63 || base + end >= TWO63 then Err(InvalidLength)
    else if end > |b| then Err(UnexpectedEOF)
    else Ok(Span(length.len, end))
  }

  function SkipUnknown(b: seq<byte>, base: nat): (r: Result<nat>)
    ensures r.Ok? ==> r.value <= |b|
  {
    var n :- Skip(b);
    if base + n >= TWO63 then Err(InvalidLength)
    else if n > |b| then Err(UnexpectedEOF)
    else Ok(n)
  }

  function NextField(schema: Schema, b: seq<byte>, base: nat): (r: Result<Field>)
    ensures r.Ok? ==> 1 <= r.value.len <= |b|
    ensures r.Ok? && r.value.token.Chunk? ==> |r.value.token.payload| < |b|
  {
    var tag :- ReadTag(b);
    if tag.num !in schema then
      var n :- SkipUnknown(b, base);
      SkipMoves(b);
      Ok(Field(Unknown, n))
    else if schema[tag.num].ScalarKind? then
      if tag.wireType != 0 then Err(WrongWireType(tag.wireType, tag.num)) else
      var v :- ReadVarint(b[tag.len..]);
      Ok(Field(Scalar(tag.num, v.value), tag.len + v.len))
    else
      if tag.wireType != 2 then Err(WrongWireType(tag.wireType, tag.num)) else
      var s :- ReadLength(b[tag.len..], base + tag.len);
      Ok(Field(Chunk(tag.num, b[tag.len + s.start..tag.len + s.end]), tag.len + s.end))
  }

  lemma {:induction false} SkipMoves(b: seq<byte>)
    ensures Skip(b).Ok? ==> Skip(b).value >= 1
  {
    if |b| > 0 { SkipFromMoves(b, 0, 0); }
  }

  lemma {:induction false} SkipFromMoves(b: seq<byte>, pos: nat, depth: nat)
    requires pos < |b|
    ensures SkipFrom(b, pos, depth).Ok? ==> SkipFrom(b, pos, depth).value > pos
    decreases |b| - pos
  {
    hide Pass;
    SkipStep(b, pos, depth);
    if Pass(b, pos).Ok? {
      var m := Pass(b, pos).value;
      PassMoves(b, pos);
      if m.next < |b| {
        var d := if m.Over? then depth else if m.Open? then depth + 1 else if depth == 0 then 0 else depth - 1;
        SkipFromMoves(b, m.next, d);
      }
    }
  }

  lemma PassMoves(b: seq<byte>, pos: nat)
    requires pos < |b|
    ensures Pass(b, pos).Ok? ==> pos < Pass(b, pos).value.next
  {
  }

  // ---- A field is read the same way whatever stands before or after it ----

  lemma ReadTagPrefix(a: seq<byte>, c: seq<byte>)
    requires ReadTag(a).Ok?
    ensures ReadTag(a + c) == ReadTag(a)
  {
    hide ReadVarint, ToInt32;
    ReadVarintPrefix(a, c);
  }

  lemma ReadLengthPrefix(a: seq<byte>, c: seq<byte>, base: nat, base': nat)
    requires ReadLength(a, base).Ok? && base' + |a| < TWO63
    ensures ReadLength(a + c, base') == ReadLength(a, base)
  {
    hide ReadVarint;
    ReadVarintPrefix(a, c);
  }

  lemma NextFieldPrefix(schema: Schema, a: seq<byte>, c: seq<byte>, base: nat, base': nat)
    requires |a| + |c| < TWO63 && base' + |a| < TWO63
    requires NextField(schema, a, base).Ok?
    ensures NextField(schema, a + c, base') == NextField(schema, a, base)
  {
    hide ReadTag, ReadVarint, ReadLength, Skip;
    var tag := ReadTag(a).value;
    ReadTagPrefix(a, c);
    assert (a + c)[tag.len..] == a[tag.len..] + c;
    if tag.num !in schema {
      SkipPrefix(a, c);
    } else if schema[tag.num].ScalarKind? {
      ReadVarintPrefix(a[tag.len..], c);
    } else {
      ReadLengthPrefix(a[tag.len..], c, base + tag.len, base' + tag.len);
      var s := ReadLength(a[tag.len..], base + tag.len).value;
      assert (a + c)[tag.len + s.start..tag.len + s.end] == a[tag.len + s.start..tag.len + s.end];
    }
  }

  /** The position in the buffer decides at most which error is reported. */
  lemma NextFieldBase(schema: Schema, b: seq<byte>, base: nat, base': nat)
    requires |b| < TWO63 && base + |b| < TWO63 && base' + |b| < TWO63
    ensures SameOutcome(NextField(schema, b, base), NextField(schema, b, base'))
  {
    if NextField(schema, b, base).Ok? {
      NextFieldPrefix(schema, b, [], base, base');
    } else if NextField(schema, b, base').Ok? {
      NextFieldPrefix(schema, b, [], base', base);
    }
    assert b + [] == b;
  }

  // ---- What the encoder emits is read back as one field ----

  function TagBytes(num: nat, wireType: nat): seq<byte> {
    EncVarint(8 * num + wireType)
  }

  function ScalarField(num: nat, v: uint64): seq<byte> {
    TagBytes(num, 0) + EncVarint(v)
  }

  function BytesField(num: nat, payload: seq<byte>): seq<byte> {
    TagBytes(num, 2) + EncVarint(|payload|) + payload
  }

  lemma ReadTagOf(num: nat, wireType: nat, rest: seq<byte>)
    requires 0 < num < 0x2000_0000 && wireType < 8 && wireType != 4
    ensures ReadTag(TagBytes(num, wireType) + rest) == Ok(Tag(num, wireType, |TagBytes(num, wireType)|))
  {
    hide ReadVarint, EncVarint;
    var w := 8 * num + wireType;
    VarintRoundTrip(w, rest);
    assert w / 8 == num && w % 8 == wireType;
  }

  lemma NextFieldOfScalar(schema: Schema, num: nat, v: uint64, base: nat)
    requires 0 < num < 0x2000_0000 && num in schema && schema[num].ScalarKind?
    ensures NextField(schema, ScalarField(num, v), base) == Ok(Field(Scalar(num, v), |ScalarField(num, v)|))
  {
    hide ReadVarint, EncVarint, ReadTag;
    var tag := TagBytes(num, 0);
    ReadTagOf(num, 0, EncVarint(v));
    assert ScalarField(num, v)[|tag|..] == EncVarint(v) + [];
    VarintRoundTrip(v, []);
  }

  lemma NextFieldOfBytes(schema: Schema, num: nat, payload: seq<byte>, base: nat)
    requires 0 < num < 0x2000_0000 && num in schema && schema[num].BytesKind?
    requires base + |BytesField(num, payload)| < TWO63
    ensures NextField(schema, BytesField(num, payload), base)
         == Ok(Field(Chunk(num, payload), |BytesField(num, payload)|))
  {
    hide ReadVarint, EncVarint, ReadTag;
    var tag := TagBytes(num, 2);
    var len := EncVarint(|payload|);
    assert BytesField(num, payload) == tag + (len + payload);
    ReadTagOf(num, 2, len + payload);
    var b := BytesField(num, payload)[|tag|..];
    assert b == len + payload;
    VarintRoundTrip(|payload|, payload);
    var span := ReadLength(b, base + |tag|);
    assert span == Ok(Span(|len|, |len| + |payload|));
    assert BytesField(num, payload)[|tag| + |len|..|tag| + |len| + |payload|] == payload;
  }

  /** A complete field of the wire grammar whose number the message does not know is stepped over. */
  lemma NextFieldOfUnknown(schema: Schema, f: WireField, base: nat)
    requires WellFormed(f) && base + |Wire(f)| < TWO63
    requires ReadTag(Wire(f)).Ok? && ReadTag(Wire(f)).value.num !in schema
    ensures NextField(schema, Wire(f), base) == Ok(Field(Unknown, |Wire(f)|))
  {
    hide ReadTag, Wire, WellFormed, SkipFrom;
    var b := Wire(f);
    assert b[0..|b|] == b;
    SkipsField(b, 0, 0, f);
  }
}
