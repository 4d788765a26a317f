/** The pieces that every generated `MarshalToSizedBuffer` and `Unmarshal` is assembled from: writing a
    field just before position i of a buffer, and reading a tag, a length or an int32 at a position. */
module CodecBuffer {
  import opened Wrappers
  import opened Varint
  import opened WireSkip
  import opened Fields
  import opened Messages

  // ---- Writing, back to front ----

  /** From the buffer contents `before` to `now`, exactly the bytes e have been put at [i, end). */
  predicate Emitted(before: bytes, now: bytes, i: nat, end: nat, e: bytes) {
    && |before| == |now| && end <= |now| && i + |e| == end
    && now[i..end] == e
    && now[..i] == before[..i]
    && now[end..] == before[end..]
  }

  lemma NothingEmitted(b: bytes, end: nat)
    requires end <= |b|
    ensures Emitted(b, b, end, end, [])
  {
  }

  /** Putting f just in front of e. */
  lemma EmittedInFront(b0: bytes, b1: bytes, b2: bytes, j: nat, i: nat, end: nat, f: bytes, e: bytes)
    requires Emitted(b0, b1, i, end, e) && Emitted(b1, b2, j, i, f)
    ensures Emitted(b0, b2, j, end, f + e)
  {
    assert b2[i..end] == b2[i..][..end - i] == b1[i..][..end - i] == b1[i..end];
    assert b2[end..] == b2[i..][end - i..] == b1[i..][end - i..] == b1[end..];
    assert b2[j..end] == b2[j..i] + b2[i..end];
    assert b2[..j] == b1[..j] == b1[..i][..j] == b0[..i][..j] == b0[..j];
  }

  /** `i--; dAtA[i] = tag`. */
  method PutByte(dAtA: array<byte>, i: nat, tag: byte, ghost start: bytes, ghost end: nat, ghost tail: bytes)
    returns (j: nat)
    requires 1 <= i && Emitted(start, dAtA[..], i, end, tail)
    modifies dAtA
    ensures j == i - 1 && Emitted(start, dAtA[..], j, end, [tag] + tail)
  {
    ghost var now := dAtA[..];
    j := i - 1;
    dAtA[j] := tag;
    assert dAtA[..][j..i] == [tag];
    EmittedInFront(start, now, dAtA[..], j, i, end, [tag], tail);
  }

  /** `i = encodeVarintList(dAtA, i, v)`. */
  method PutVarint(dAtA: array<byte>, i: nat, v: uint64, ghost start: bytes, ghost end: nat, ghost tail: bytes)
    returns (j: nat)
    requires |EncVarint(v)| <= i && Emitted(start, dAtA[..], i, end, tail)
    modifies dAtA
    ensures j == i - |EncVarint(v)| && Emitted(start, dAtA[..], j, end, EncVarint(v) + tail)
  {
    hide EncVarint;
    ghost var now := dAtA[..];
    j := EncodeVarint(dAtA, i, v);
    EmittedInFront(start, now, dAtA[..], j, i, end, EncVarint(v), tail) by {
      assert dAtA[..][j..i] == dAtA[j..i] && dAtA[..][..j] == dAtA[..j] && now[..j] == old(dAtA[..j]);
      assert dAtA[..][i..] == dAtA[i..] && now[i..] == old(dAtA[i..]);
    }
  }

  /** `i -= len(s); copy(dAtA[i:], s)`. */
  method PutCopy(dAtA: array<byte>, i: nat, s: bytes, ghost start: bytes, ghost end: nat, ghost tail: bytes)
    returns (j: nat)
    requires |s| <= i && Emitted(start, dAtA[..], i, end, tail)
    modifies dAtA
    ensures j == i - |s| && Emitted(start, dAtA[..], j, end, s + tail)
  {
    ghost var now := dAtA[..];
    j := i - |s|;
    forall k | 0 <= k < |s| {
      dAtA[j + k] := s[k];
    }
    assert dAtA[..][j..i] == s;
    EmittedInFront(start, now, dAtA[..], j, i, end, s, tail);
  }

  /** A one-byte tag is the varint of field number times eight plus wire type. */
  lemma OneByteTag(num: nat, wireType: nat)
    requires 8 * num + wireType < 128
    ensures TagBytes(num, wireType) == [8 * num + wireType]
  {
  }

  method PutScalarField(dAtA: array<byte>, i: nat, tag: byte, v: uint64, ghost num: nat,
                        ghost start: bytes, ghost end: nat, ghost tail: bytes) returns (j: nat)
    requires TagBytes(num, 0) == [tag]
    requires |ScalarField(num, v)| <= i && Emitted(start, dAtA[..], i, end, tail)
    modifies dAtA
    ensures j == i - |ScalarField(num, v)| && Emitted(start, dAtA[..], j, end, ScalarField(num, v) + tail)
  {
    hide EncVarint, Emitted;
    j := PutVarint(dAtA, i, v, start, end, tail);
    j := PutByte(dAtA, j, tag, start, end, EncVarint(v) + tail);
    assert ScalarField(num, v) + tail == [tag] + (EncVarint(v) + tail);
  }

  /** Length and tag in front of a payload that already stands at [i, i + size). */
  method PutHeader(dAtA: array<byte>, i: nat, tag: byte, size: nat, ghost num: nat, ghost payload: bytes,
                   ghost start: bytes, ghost end: nat, ghost tail: bytes) returns (j: nat)
    requires TagBytes(num, 2) == [tag] && size == |payload| < TWO63
    requires |BytesField(num, payload)| <= i + size && Emitted(start, dAtA[..], i, end, payload + tail)
    modifies dAtA
    ensures j == i + size - |BytesField(num, payload)|
    ensures Emitted(start, dAtA[..], j, end, BytesField(num, payload) + tail)
  {
    hide EncVarint, Emitted;
    j := PutVarint(dAtA, i, size, start, end, payload + tail);
    j := PutByte(dAtA, j, tag, start, end, EncVarint(size) + (payload + tail));
    assert BytesField(num, payload) + tail == [tag] + (EncVarint(size) + (payload + tail));
  }

  method PutBytesField(dAtA: array<byte>, i: nat, tag: byte, s: bytes, ghost num: nat,
                       ghost start: bytes, ghost end: nat, ghost tail: bytes) returns (j: nat)
    requires TagBytes(num, 2) == [tag] && |s| < TWO63
    requires |BytesField(num, s)| <= i && Emitted(start, dAtA[..], i, end, tail)
    modifies dAtA
    ensures j == i - |BytesField(num, s)| && Emitted(start, dAtA[..], j, end, BytesField(num, s) + tail)
  {
    hide EncVarint, Emitted;
    BytesFit(num, s);
    j := PutCopy(dAtA, i, s, start, end, tail);
    j := PutHeader(dAtA, j, tag, |s|, num, s, start, end, tail);
  }

  /** A submessage has just been marshalled into [i - size, i); its length and tag go in front. */
  method PutEmbedded(dAtA: array<byte>, i: nat, tag: byte, size: nat, ghost num: nat, ghost payload: bytes,
                     ghost now: bytes, ghost start: bytes, ghost end: nat, ghost tail: bytes) returns (j: nat)
    requires TagBytes(num, 2) == [tag] && size == |payload| < TWO63 && size <= i
    requires |BytesField(num, payload)| <= i
    requires Emitted(start, now, i, end, tail) && Emitted(now, dAtA[..], i - size, i, payload)
    modifies dAtA
    ensures j == i - |BytesField(num, payload)|
    ensures Emitted(start, dAtA[..], j, end, BytesField(num, payload) + tail)
  {
    hide BytesField, Emitted;
    EmittedInFront(start, now, dAtA[..], i - size, i, end, payload, tail);
    j := PutHeader(dAtA, i - size, tag, size, num, payload, start, end, tail);
  }

  lemma BytesFit(num: nat, s: bytes)
    ensures |s| < |BytesField(num, s)|
  {
  }

  // ---- Reading, front to back ----

  method ReadTagAt(dAtA: bytes, iNdEx: nat) returns (r: Result<Tag>)
    requires iNdEx <= |dAtA|
    ensures r == ReadTag(dAtA[iNdEx..])
  {
    hide ReadVarint;
    var wire := DecodeVarint(dAtA, iNdEx, TWO64);
    if wire.Err? { return Err(wire.error); }
    var fieldNum := ToInt32(wire.value.value / 8);
    var wireType := wire.value.value % 8;
    if wireType == 4 { return Err(EndGroupForNonGroup); }
    if fieldNum <= 0 { return Err(IllegalTag(fieldNum, wire.value.value)); }
    r := Ok(Tag(fieldNum, wireType, wire.value.len));
  }

  /** The length of a payload, with the two tests for a negative int64. The tests catch exactly the
      lengths that would carry the index past the largest int64. */
  method ReadLengthAt(dAtA: bytes, iNdEx: nat) returns (r: Result<Span>)
    requires iNdEx <= |dAtA| < TWO63
    ensures r == ReadLength(dAtA[iNdEx..], iNdEx)
  {
    hide ReadVarint;
    var length := DecodeVarint(dAtA, iNdEx, TWO64);
    if length.Err? { return Err(length.error); }
    var at := iNdEx + length.value.len;
    if WrapInt64(length.value.value) < 0 { return Err(InvalidLength); }
    var postIndex := WrapInt64(at + length.value.value);
    if postIndex < 0 { return Err(InvalidLength); }
    if postIndex > |dAtA| { return Err(UnexpectedEOF); }
    r := Ok(Span(length.value.len, postIndex - iNdEx));
  }

  method SkipUnknownAt(dAtA: bytes, iNdEx: nat) returns (r: Result<nat>)
    requires iNdEx <= |dAtA| < TWO63
    ensures r == SkipUnknown(dAtA[iNdEx..], iNdEx)
  {
    hide Skip;
    var skippy := SkipList(dAtA[iNdEx..]);
    if skippy.Err? { return Err(skippy.error); }
    SkipBound(dAtA[iNdEx..]);
    var post := WrapInt64(iNdEx + skippy.value);
    if post < 0 { return Err(InvalidLength); }
    if post > |dAtA| { return Err(UnexpectedEOF); }
    r := Ok(skippy.value);
  }

  lemma {:induction false} SkipFromBound(b: seq<byte>, pos: nat, depth: nat)
    ensures SkipFrom(b, pos, depth).Ok? ==> SkipFrom(b, pos, depth).value < TWO63
    decreases |b| - pos
  {
    hide Pass;
    if pos < |b| && Pass(b, pos).Ok? && Pass(b, pos).value.next < |b| {
      var m := Pass(b, pos).value;
      if m.Over? { SkipFromBound(b, m.next, depth); }
      else if m.Open? { SkipFromBound(b, m.next, depth + 1); }
      else if depth > 0 { SkipFromBound(b, m.next, depth - 1); }
    }
  }

  lemma SkipBound(b: seq<byte>)
    ensures Skip(b).Ok? ==> Skip(b).value < TWO63
  {
    SkipFromBound(b, 0, 0);
  }

  datatype Int32Read = Int32Read(value: int32, len: nat)

  /** `m.F |= int32(b & 0x7F) << shift`: the 32-bit loop yields the low half of the 64-bit value. */
  method ReadInt32At(dAtA: bytes, iNdEx: nat) returns (r: Result<Int32Read>)
    requires iNdEx <= |dAtA|
    ensures ReadVarint(dAtA[iNdEx..]).Err? ==> r == Err(ReadVarint(dAtA[iNdEx..]).error)
    ensures ReadVarint(dAtA[iNdEx..]).Ok? ==>
      r == Ok(Int32Read(ToInt32(ReadVarint(dAtA[iNdEx..]).value.value), ReadVarint(dAtA[iNdEx..]).value.len))
  {
    hide ReadVarint;
    var v := DecodeVarint(dAtA, iNdEx, TWO32);
    if v.Err? { return Err(v.error); }
    r := Ok(Int32Read(ToInt32(v.value.value), v.value.len));
  }

  // ---- One turn of the decoding loop ----

  /** What is left to decode at position i, as a whole. */
  function Rest(m: Message, dAtA: bytes, i: nat): Result<Message>
    requires i <= |dAtA|
  {
    Parse(m, dAtA[i..], i)
  }

  /** The field at position i is t and ends at j. */
  predicate FieldAt(m: Message, dAtA: bytes, i: nat, t: Token, j: nat) {
    i < j <= |dAtA| && NextField(SchemaOf(m), dAtA[i..], i) == Ok(Field(t, j - i))
  }

  lemma WholeBuffer(m: Message, dAtA: bytes)
    ensures Rest(m, dAtA, 0) == Parse(m, dAtA, 0) && Rest(m, dAtA, |dAtA|) == Ok(m)
  {
    assert dAtA[0..] == dAtA;
  }

  lemma Advance(m: Message, dAtA: bytes, i: nat, t: Token, j: nat)
    requires FieldAt(m, dAtA, i, t, j)
    ensures Apply(m, t).Err? ==> Rest(m, dAtA, i) == Err(Apply(m, t).error)
    ensures Apply(m, t).Ok? ==> Rest(m, dAtA, i) == Rest(Apply(m, t).value, dAtA, j)
  {
    hide NextField, Apply, SchemaOf;
    assert dAtA[i..][j - i..] == dAtA[j..];
  }

  method ReadTagOfField(ghost m: Message, dAtA: bytes, i: nat) returns (r: Result<Tag>)
    requires i < |dAtA|
    ensures r == ReadTag(dAtA[i..])
    ensures r.Err? ==> Rest(m, dAtA, i) == Err(r.error)
  {
    hide ReadTag, Apply, SchemaOf;
    r := ReadTagAt(dAtA, i);
  }

  /** A known field of wire type 2: check the wire type, read the length. */
  method ReadChunk(ghost m: Message, dAtA: bytes, i: nat, t: Tag) returns (r: Result<Span>)
    requires i < |dAtA| < TWO63 && ReadTag(dAtA[i..]) == Ok(t)
    requires t.num in SchemaOf(m) && SchemaOf(m)[t.num].BytesKind?
    ensures r.Err? ==> Rest(m, dAtA, i) == Err(r.error)
    ensures r.Ok? ==>
      && i < r.value.start <= r.value.end <= |dAtA|
      && FieldAt(m, dAtA, i, Chunk(t.num, dAtA[r.value.start..r.value.end]), r.value.end)
  {
    hide ReadTag, ReadLength, Apply, SchemaOf;
    if t.wireType != 2 { return Err(WrongWireType(t.wireType, t.num)); }
    var p := i + t.len;
    assert dAtA[i..][t.len..] == dAtA[p..];
    var s := ReadLengthAt(dAtA, p);
    if s.Err? { return Err(s.error); }
    assert dAtA[i..][t.len + s.value.start..t.len + s.value.end] == dAtA[p + s.value.start..p + s.value.end];
    r := Ok(Span(p + s.value.start, p + s.value.end));
  }

  datatype ScalarRead = ScalarRead(value: int32, end: nat)

  /** A known int32 field: check the wire type, run the 32-bit loop. */
  method ReadScalar(ghost m: Message, dAtA: bytes, i: nat, t: Tag) returns (r: Result<ScalarRead>, ghost v: uint64)
    requires i < |dAtA| < TWO63 && ReadTag(dAtA[i..]) == Ok(t)
    requires t.num in SchemaOf(m) && SchemaOf(m)[t.num].ScalarKind?
    ensures r.Err? ==> Rest(m, dAtA, i) == Err(r.error)
    ensures r.Ok? ==> i < r.value.end <= |dAtA| && r.value.value == ToInt32(v)
    ensures r.Ok? ==> FieldAt(m, dAtA, i, Scalar(t.num, v), r.value.end)
  {
    hide ReadTag, ReadVarint, Apply, SchemaOf, ToInt32;
    v := 0;
    if t.wireType != 0 { return Err(WrongWireType(t.wireType, t.num)), v; }
    var p := i + t.len;
    assert dAtA[i..][t.len..] == dAtA[p..];
    var w := ReadInt32At(dAtA, p);
    if w.Err? { return Err(w.error), v; }
    v := ReadVarint(dAtA[p..]).value.value;
    r := Ok(ScalarRead(w.value.value, p + w.value.len));
  }

  /** An unknown field: step over it. */
  method ReadUnknown(ghost m: Message, dAtA: bytes, i: nat, t: Tag) returns (r: Result<nat>)
    requires i < |dAtA| < TWO63 && ReadTag(dAtA[i..]) == Ok(t) && t.num !in SchemaOf(m)
    ensures r.Err? ==> Rest(m, dAtA, i) == Err(r.error)
    ensures r.Ok? ==> i < r.value <= |dAtA| && FieldAt(m, dAtA, i, Unknown, r.value)
  {
    hide ReadTag, SkipUnknown, Apply, SchemaOf;
    var n := SkipUnknownAt(dAtA, i);
    if n.Err? { return Err(n.error); }
    assert NextField(SchemaOf(m), dAtA[i..], i) == Ok(Field(Unknown, n.value));
    r := Ok(i + n.value);
  }
}
