/** Pieces of the `Validation` codec: fields written only when set, tags of one or two bytes, bools. */
module OptionsBuffer {
  import opened Wrappers
  import opened Varint
  import opened Fields
  import opened CodecBuffer
  import opened ListCodec
  import opened ListOptions
  import opened ListTree
  import opened Messages

  /** A tag of two bytes, low group first. */
  lemma TwoByteTag(num: nat, wireType: nat)
    requires 128 <= 8 * num + wireType < 16384
    ensures TagBytes(num, wireType) == [(8 * num + wireType) % 128 + 128, (8 * num + wireType) / 128]
  {
    var w := 8 * num + wireType;
    assert EncVarint(w / 128) == [w / 128];
  }

  /** The last tag byte goes in first. */
  method PutTag(dAtA: array<byte>, i: nat, tag: bytes, ghost start: bytes, ghost end: nat, ghost tail: bytes)
    returns (j: nat)
    requires |tag| <= i && Emitted(start, dAtA[..], i, end, tail)
    modifies dAtA
    ensures j == i - |tag| && Emitted(start, dAtA[..], j, end, tag + tail)
  {
    hide Emitted;
    j := i;
    var k := |tag|;
    assert tag[k..] + tail == tail;
    while k > 0
      invariant 0 <= k <= |tag| && j == i - (|tag| - k)
      invariant Emitted(start, dAtA[..], j, end, tag[k..] + tail)
    {
      k := k - 1;
      ghost var behind := tag[k + 1..] + tail;
      j := PutByte(dAtA, j, tag[k], start, end, behind);
      assert [tag[k]] + behind == tag[k..] + tail;
    }
    assert tag[0..] == tag;
  }

  /** Length and tag in front of a payload that already stands at [i, i + size). */
  method PutLongHeader(dAtA: array<byte>, i: nat, tag: bytes, size: nat, ghost num: nat, ghost payload: bytes,
                       ghost start: bytes, ghost end: nat, ghost tail: bytes) returns (j: nat)
    requires TagBytes(num, 2) == tag && size == |payload| < TWO63
    requires |BytesField(num, payload)| <= i + size && Emitted(start, dAtA[..], i, end, payload + tail)
    modifies dAtA
    ensures j == i + size - |BytesField(num, payload)|
    ensures Emitted(start, dAtA[..], j, end, BytesField(num, payload) + tail)
  {
    hide EncVarint, Emitted, TagBytes;
    j := PutVarint(dAtA, i, size, start, end, payload + tail);
    j := PutTag(dAtA, j, tag, start, end, EncVarint(size) + (payload + tail));
    assert BytesField(num, payload) + tail == tag + (EncVarint(size) + (payload + tail));
  }

  /** A string field, if not empty. */
  method PutText(dAtA: array<byte>, i: nat, tag: bytes, s: bytes, ghost num: nat,
                 ghost start: bytes, ghost end: nat, ghost tail: bytes) returns (j: nat)
    requires TagBytes(num, 2) == tag && |OptBytes(num, s)| <= i <= dAtA.Length < TWO63
    requires Emitted(start, dAtA[..], i, end, tail)
    modifies dAtA
    ensures j == i - |OptBytes(num, s)| && Emitted(start, dAtA[..], j, end, OptBytes(num, s) + tail)
  {
    hide BytesField, Emitted, TagBytes;
    j := i;
    if |s| > 0 {
      BytesFit(num, s);
      j := PutCopy(dAtA, i, s, start, end, tail);
      j := PutLongHeader(dAtA, j, tag, |s|, num, s, start, end, tail);
    } else {
      assert [] + tail == tail;
    }
  }

  lemma BoolField(num: nat, b: bool)
    ensures ScalarField(num, if b then 1 else 0) == TagBytes(num, 0) + [if b then 1 else 0]
  {
    hide TagBytes;
  }

  /** A bool, whatever it is: the byte, then the tag. */
  method PutBool(dAtA: array<byte>, i: nat, tag: bytes, b: bool, ghost num: nat,
                 ghost start: bytes, ghost end: nat, ghost tail: bytes) returns (j: nat)
    requires TagBytes(num, 0) == tag && |ScalarField(num, if b then 1 else 0)| <= i
    requires Emitted(start, dAtA[..], i, end, tail)
    modifies dAtA
    ensures j == i - |ScalarField(num, if b then 1 else 0)|
    ensures Emitted(start, dAtA[..], j, end, ScalarField(num, if b then 1 else 0) + tail)
  {
    BoolField(num, b);
    hide ScalarField, Emitted, TagBytes;
    j := PutByte(dAtA, i, if b then 1 else 0, start, end, tail);
    ghost var octet := [if b then 1 else 0];
    j := PutTag(dAtA, j, tag, start, end, octet + tail);
    assert (tag + octet) + tail == tag + (octet + tail);
  }

  /** A plain bool field, if true. */
  method PutFlag(dAtA: array<byte>, i: nat, tag: bytes, b: bool, ghost num: nat,
                 ghost start: bytes, ghost end: nat, ghost tail: bytes) returns (j: nat)
    requires TagBytes(num, 0) == tag && |OptFlag(num, b)| <= i && Emitted(start, dAtA[..], i, end, tail)
    modifies dAtA
    ensures j == i - |OptFlag(num, b)| && Emitted(start, dAtA[..], j, end, OptFlag(num, b) + tail)
  {
    hide ScalarField, Emitted, TagBytes;
    j := i;
    if b {
      j := PutBool(dAtA, i, tag, b, num, start, end, tail);
    } else {
      assert [] + tail == tail;
    }
  }

  /** A list of strings, last element first. */
  method PutStrings(dAtA: array<byte>, at: nat, tag: byte, ss: seq<bytes>, ghost num: nat,
                    ghost start: bytes, ghost end: nat, ghost tail: bytes) returns (i: nat)
    requires TagBytes(num, 2) == [tag] && |EncStrings(num, ss)| <= at <= dAtA.Length < TWO63
    requires Emitted(start, dAtA[..], at, end, tail)
    modifies dAtA
    ensures i == at - |EncStrings(num, ss)| && Emitted(start, dAtA[..], i, end, EncStrings(num, ss) + tail)
  {
    i := at;
    var iNdEx := |ss|;
    ListEnds([], num, ss);
    assert [] + tail == tail;
    hide *;
    while iNdEx > 0
      invariant 0 <= iNdEx <= |ss|
      invariant i == at - |EncStrings(num, ss[iNdEx..])|
      invariant Emitted(start, dAtA[..], i, end, EncStrings(num, ss[iNdEx..]) + tail)
    {
      iNdEx := iNdEx - 1;
      StringsSuffix(num, ss, iNdEx);
      BytesFit(num, ss[iNdEx]);
      ghost var behind := EncStrings(num, ss[iNdEx + 1..]) + tail;
      i := PutBytesField(dAtA, i, tag, ss[iNdEx], num, start, end, behind);
      Regroup(BytesField(num, ss[iNdEx]), EncStrings(num, ss[iNdEx + 1..]), tail);
    }
  }

  // ---- Sizes ----

  lemma OptBytesSize(num: nat, s: bytes)
    requires 8 * num + 2 < 16384
    ensures |OptBytes(num, s)|
         == if s == [] then 0 else (if 8 * num + 2 < 128 then 1 else 2) + |s| + Sov(|s|)
  {
    hide Sov;
    SovIsLength(|s|);
    if 8 * num + 2 < 128 { OneByteTag(num, 2); } else { TwoByteTag(num, 2); }
  }

  lemma BytesFieldSize2(num: nat, p: bytes)
    requires 128 <= 8 * num + 2 < 16384
    ensures |BytesField(num, p)| == 2 + |p| + Sov(|p|)
  {
    hide Sov;
    SovIsLength(|p|);
    TwoByteTag(num, 2);
  }

  lemma OptFlagSize(num: nat, b: bool)
    requires 8 * num < 16384
    ensures |OptFlag(num, b)| == if !b then 0 else if 8 * num < 128 then 2 else 3
  {
    if b {
      BoolField(num, b);
      if 8 * num < 128 { OneByteTag(num, 0); } else { TwoByteTag(num, 0); }
    }
  }

  lemma BoolFieldSize(num: nat, b: bool)
    requires 128 <= 8 * num < 16384
    ensures |ScalarField(num, if b then 1 else 0)| == 3
  {
    BoolField(num, b);
    TwoByteTag(num, 0);
  }

  method SizeStrings(ss: seq<bytes>, ghost num: nat) returns (n: nat)
    requires 8 * num + 2 < 128
    ensures n == |EncStrings(num, ss)|
  {
    hide BytesField, Sov;
    ListEnds([], num, ss);
    n := 0;
    for k := 0 to |ss|
      invariant n + |EncStrings(num, ss[k..])| == |EncStrings(num, ss)|
    {
      StringsSuffix(num, ss, k);
      BytesFieldSize(num, ss[k]);
      n := n + 1 + |ss[k]| + Sov(|ss[k]|);
    }
  }

  method SizeText(s: bytes, long: bool, ghost num: nat) returns (n: nat)
    requires 8 * num + 2 < 16384 && (long <==> 8 * num + 2 >= 128)
    ensures n == |OptBytes(num, s)|
  {
    hide OptBytes, Sov;
    OptBytesSize(num, s);
    n := 0;
    if |s| > 0 {
      n := (if long then 2 else 1) + |s| + Sov(|s|);
    }
  }

  // ---- Reading ----

  datatype BoolRead = BoolRead(value: bool, end: nat)

  /** A known bool field: the loop yields a 64-bit value, true unless it is zero. */
  method ReadBool(ghost m: Message, dAtA: bytes, i: nat, t: Tag) returns (r: Result<BoolRead>, ghost v: uint64)
    requires i < |dAtA| < TWO63 && ReadTag(dAtA[i..]) == Ok(t)
    requires t.num in SchemaOf(m) && SchemaOf(m)[t.num].ScalarKind?
    ensures r.Err? ==> Rest(m, dAtA, i) == Err(r.error)
    ensures r.Ok? ==> i < r.value.end <= |dAtA| && (r.value.value <==> v != 0)
    ensures r.Ok? ==> FieldAt(m, dAtA, i, Scalar(t.num, v), r.value.end)
  {
    hide ReadTag, ReadVarint, Apply, SchemaOf;
    v := 0;
    if t.wireType != 0 { return Err(WrongWireType(t.wireType, t.num)), v; }
    var p := i + t.len;
    assert dAtA[i..][t.len..] == dAtA[p..];
    var w := DecodeVarint(dAtA, p, TWO64);
    if w.Err? { return Err(w.error), v; }
    v := ReadVarint(dAtA[p..]).value.value;
    assert w.value.value == v;
    r := Ok(BoolRead(w.value.value != 0, p + w.value.len));
  }
}
