/** The generated codec of list.proto: message structs with their `Size`, `MarshalToSizedBuffer`,
    `Marshal`, `Unmarshal` and `Equal`. */
module ListCodec {
  import opened Wrappers
  import opened Varint
  import opened Fields
  import opened CodecBuffer
  import opened Messages

  /** The bytes of the library type Any, written before position i. */
  method MarshalAny(a: Any, dAtA: array<byte>, end: nat) returns (n: nat)
    requires |EncAny(a)| <= end <= dAtA.Length < TWO63
    modifies dAtA
    ensures n == |EncAny(a)| && Emitted(old(dAtA[..]), dAtA[..], end - n, end, EncAny(a))
  {
    var i := end;
    ghost var start := dAtA[..];
    NothingEmitted(start, end);
    OneByteTag(1, 2);
    OneByteTag(2, 2);
    hide BytesField, Emitted;
    if |a.value| > 0 {
      BytesFit(2, a.value);
      i := PutBytesField(dAtA, i, 0x12, a.value, 2, start, end, []);
    }
    if |a.typeUrl| > 0 {
      BytesFit(1, a.typeUrl);
      i := PutBytesField(dAtA, i, 0xa, a.typeUrl, 1, start, end, OptBytes(2, a.value));
    }
    n := end - i;
  }

  method UnmarshalAny(a: Any, dAtA: bytes) returns (r: Result<Any>)
    requires |dAtA| < TWO63
    ensures match Parse(AnyMsg(a), dAtA, 0)
      case Ok(m) => r == Ok(m.any)
      case Err(e) => r == Err(e)
  {
    hide Rest, FieldAt, Parse, ReadTag;
    WholeBuffer(AnyMsg(a), dAtA);
    var m := a;
    var iNdEx := 0;
    while iNdEx < |dAtA|
      invariant 0 <= iNdEx <= |dAtA|
      invariant Rest(AnyMsg(a), dAtA, 0) == Rest(AnyMsg(m), dAtA, iNdEx)
    {
      ghost var now := AnyMsg(m);
      var tag := ReadTagOfField(now, dAtA, iNdEx);
      if tag.Err? { return Err(tag.error); }
      var t := tag.value;
      if t.num == 1 || t.num == 2 {
        var span := ReadChunk(now, dAtA, iNdEx, t);
        if span.Err? { return Err(span.error); }
        var payload := dAtA[span.value.start..span.value.end];
        Advance(now, dAtA, iNdEx, Chunk(t.num, payload), span.value.end);
        m := if t.num == 1 then m.(typeUrl := payload) else m.(value := payload);
        iNdEx := span.value.end;
      } else {
        var skippy := ReadUnknown(now, dAtA, iNdEx, t);
        if skippy.Err? { return Err(skippy.error); }
        Advance(now, dAtA, iNdEx, Unknown, skippy.value);
        iNdEx := skippy.value;
      }
    }
    WholeBuffer(AnyMsg(m), dAtA);
    r := Ok(m);
  }

  class OrderByMessage {
    var field: bytes
    var dir: int32

    constructor ()
      ensures Value() == EMPTY_ORDER_BY
    {
      field, dir := [], 0;
    }

    function Value(): OrderBy
      reads this
    {
      OrderBy(field, dir)
    }

    method Size() returns (n: nat)
      ensures n == |EncOrderBy(Value())|
    {
      n := 0;
      OneByteTag(1, 2);
      OneByteTag(2, 0);
      if |field| > 0 {
        SovIsLength(|field|);
        n := n + 1 + |field| + Sov(|field|);
      }
      if dir != 0 {
        SovIsLength(SignExtend(dir));
        n := n + 1 + Sov(SignExtend(dir));
      }
    }

    method MarshalToSizedBuffer(dAtA: array<byte>, end: nat) returns (n: nat)
      requires |EncOrderBy(Value())| <= end <= dAtA.Length < TWO63
      modifies dAtA
      ensures n == |EncOrderBy(Value())| && Emitted(old(dAtA[..]), dAtA[..], end - n, end, EncOrderBy(Value()))
    {
      hide BytesField, ScalarField, SignExtend, Emitted;
      var i := end;
      ghost var start := dAtA[..];
      NothingEmitted(start, end);
      OneByteTag(1, 2);
      OneByteTag(2, 0);
      Int32Nonzero(dir);
      if dir != 0 {
        i := PutScalarField(dAtA, i, 0x10, SignExtend(dir), 2, start, end, []);
      }
      ghost var s2 := OptScalar(2, SignExtend(dir));
      assert s2 + [] == s2 && [] + s2 == s2;
      if |field| > 0 {
        BytesFit(1, field);
        i := PutBytesField(dAtA, i, 0xa, field, 1, start, end, s2);
      }
      n := end - i;
    }

    method Unmarshal(dAtA: bytes) returns (err: Option<Error>)
      requires |dAtA| < TWO63
      modifies this
      ensures match Parse(OrderByMsg(old(Value())), dAtA, 0)
        case Ok(m) => err == None && m == OrderByMsg(Value())
        case Err(e) => err == Some(e)
    {
      hide Rest, FieldAt, Parse, ReadTag, ToInt32;
      WholeBuffer(OrderByMsg(Value()), dAtA);
      var iNdEx := 0;
      while iNdEx < |dAtA|
        invariant 0 <= iNdEx <= |dAtA|
        invariant Rest(OrderByMsg(old(Value())), dAtA, 0) == Rest(OrderByMsg(Value()), dAtA, iNdEx)
      {
        ghost var now := OrderByMsg(Value());
        var tag := ReadTagOfField(now, dAtA, iNdEx);
        if tag.Err? { return Some(tag.error); }
        var t := tag.value;
        if t.num == 1 {
          var span := ReadChunk(now, dAtA, iNdEx, t);
          if span.Err? { return Some(span.error); }
          field := dAtA[span.value.start..span.value.end];
          Advance(now, dAtA, iNdEx, Chunk(1, field), span.value.end);
          iNdEx := span.value.end;
        } else if t.num == 2 {
          var v, raw := ReadScalar(now, dAtA, iNdEx, t);
          if v.Err? { return Some(v.error); }
          dir := v.value.value;
          Advance(now, dAtA, iNdEx, Scalar(2, raw), v.value.end);
          iNdEx := v.value.end;
        } else {
          var skippy := ReadUnknown(now, dAtA, iNdEx, t);
          if skippy.Err? { return Some(skippy.error); }
          Advance(now, dAtA, iNdEx, Unknown, skippy.value);
          iNdEx := skippy.value;
        }
      }
      WholeBuffer(OrderByMsg(Value()), dAtA);
      err := None;
    }

    method Equal(that: OrderByMessage?) returns (r: bool)
      ensures r <==> that != null && Value() == that.Value()
    {
      if that == null { return false; }
      if field != that.field { return false; }
      r := dir == that.dir;
    }
  }

  class PaginationMessage {
    var offset: int32
    var limit: int32

    constructor ()
      ensures Value() == EMPTY_PAGINATION
    {
      offset, limit := 0, 0;
    }

    function Value(): PaginationSpec
      reads this
    {
      PaginationSpec(offset, limit)
    }

    method Size() returns (n: nat)
      ensures n == |EncPagination(Value())|
    {
      n := 0;
      OneByteTag(1, 0);
      OneByteTag(2, 0);
      if offset != 0 {
        SovIsLength(SignExtend(offset));
        n := n + 1 + Sov(SignExtend(offset));
      }
      if limit != 0 {
        SovIsLength(SignExtend(limit));
        n := n + 1 + Sov(SignExtend(limit));
      }
    }

    method MarshalToSizedBuffer(dAtA: array<byte>, end: nat) returns (n: nat)
      requires |EncPagination(Value())| <= end <= dAtA.Length < TWO63
      modifies dAtA
      ensures n == |EncPagination(Value())| && Emitted(old(dAtA[..]), dAtA[..], end - n, end, EncPagination(Value()))
    {
      hide ScalarField, SignExtend, Emitted;
      var i := end;
      ghost var start := dAtA[..];
      NothingEmitted(start, end);
      OneByteTag(1, 0);
      OneByteTag(2, 0);
      Int32Nonzero(offset);
      Int32Nonzero(limit);
      if limit != 0 {
        i := PutScalarField(dAtA, i, 0x10, SignExtend(limit), 2, start, end, []);
      }
      ghost var s2 := OptScalar(2, SignExtend(limit));
      assert s2 + [] == s2 && [] + s2 == s2;
      if offset != 0 {
        i := PutScalarField(dAtA, i, 0x8, SignExtend(offset), 1, start, end, s2);
      }
      n := end - i;
    }

    method Unmarshal(dAtA: bytes) returns (err: Option<Error>)
      requires |dAtA| < TWO63
      modifies this
      ensures match Parse(PaginationMsg(old(Value())), dAtA, 0)
        case Ok(m) => err == None && m == PaginationMsg(Value())
        case Err(e) => err == Some(e)
    {
      hide Rest, FieldAt, Parse, ReadTag, ToInt32;
      WholeBuffer(PaginationMsg(Value()), dAtA);
      var iNdEx := 0;
      while iNdEx < |dAtA|
        invariant 0 <= iNdEx <= |dAtA|
        invariant Rest(PaginationMsg(old(Value())), dAtA, 0) == Rest(PaginationMsg(Value()), dAtA, iNdEx)
      {
        ghost var now := PaginationMsg(Value());
        var tag := ReadTagOfField(now, dAtA, iNdEx);
        if tag.Err? { return Some(tag.error); }
        var t := tag.value;
        if t.num == 1 {
          var v, raw := ReadScalar(now, dAtA, iNdEx, t);
          if v.Err? { return Some(v.error); }
          offset := v.value.value;
          Advance(now, dAtA, iNdEx, Scalar(1, raw), v.value.end);
          iNdEx := v.value.end;
        } else if t.num == 2 {
          var v, raw := ReadScalar(now, dAtA, iNdEx, t);
          if v.Err? { return Some(v.error); }
          limit := v.value.value;
          Advance(now, dAtA, iNdEx, Scalar(2, raw), v.value.end);
          iNdEx := v.value.end;
        } else {
          var skippy := ReadUnknown(now, dAtA, iNdEx, t);
          if skippy.Err? { return Some(skippy.error); }
          Advance(now, dAtA, iNdEx, Unknown, skippy.value);
          iNdEx := skippy.value;
        }
      }
      WholeBuffer(PaginationMsg(Value()), dAtA);
      err := None;
    }

    method Equal(that: PaginationMessage?) returns (r: bool)
      ensures r <==> that != null && Value() == that.Value()
    {
      if that == null { return false; }
      if offset != that.offset { return false; }
      r := limit == that.limit;
    }
  }

  method SizeAny(a: Any) returns (n: nat)
    ensures n == |EncAny(a)|
  {
    n := 0;
    OneByteTag(1, 2);
    OneByteTag(2, 2);
    if |a.typeUrl| > 0 {
      SovIsLength(|a.typeUrl|);
      n := n + 1 + |a.typeUrl| + Sov(|a.typeUrl|);
    }
    if |a.value| > 0 {
      SovIsLength(|a.value|);
      n := n + 1 + |a.value| + Sov(|a.value|);
    }
  }

  /** The size of a length-delimited field with a one-byte tag. */
  lemma BytesFieldSize(num: nat, p: bytes)
    requires 8 * num + 2 < 128
    ensures |BytesField(num, p)| == 1 + |p| + Sov(|p|)
  {
    OneByteTag(num, 2);
    SovIsLength(|p|);
  }

  lemma ScalarFieldSize(num: nat, v: uint64)
    requires 8 * num < 128
    ensures |ScalarField(num, v)| == 1 + Sov(v)
  {
    OneByteTag(num, 0);
    SovIsLength(v);
  }

  class CriterionMessage {
    var fieldName: bytes
    var matchValue: Option<Any>
    var operator: int32

    constructor ()
      ensures Value() == EMPTY_CRITERION
    {
      fieldName, matchValue, operator := [], None, 0;
    }

    function Value(): Criterion
      reads this
    {
      Criterion(fieldName, matchValue, operator)
    }

    method Size() returns (n: nat)
      ensures n == |EncCriterion(Value())|
    {
      hide BytesField, ScalarField, SignExtend, EncAny, Sov;
      n := 0;
      BytesFieldSize(1, fieldName);
      ScalarFieldSize(3, SignExtend(operator));
      Int32Nonzero(operator);
      if |fieldName| > 0 {
        n := n + 1 + |fieldName| + Sov(|fieldName|);
      }
      if matchValue.Some? {
        var l := SizeAny(matchValue.value);
        BytesFieldSize(2, EncAny(matchValue.value));
        n := n + 1 + l + Sov(l);
      }
      if operator != 0 {
        n := n + 1 + Sov(SignExtend(operator));
      }
    }

    method MarshalToSizedBuffer(dAtA: array<byte>, end: nat) returns (n: nat)
      requires |EncCriterion(Value())| <= end <= dAtA.Length < TWO63
      modifies dAtA
      ensures n == |EncCriterion(Value())| && Emitted(old(dAtA[..]), dAtA[..], end - n, end, EncCriterion(Value()))
    {
      hide BytesField, ScalarField, SignExtend, EncAny, Emitted, EncCriterion;
      var i := end;
      ghost var start := dAtA[..];
      NothingEmitted(start, end);
      OneByteTag(1, 2);
      OneByteTag(2, 2);
      OneByteTag(3, 0);
      Int32Nonzero(operator);
      ghost var s3 := OptScalar(3, SignExtend(operator));
      ghost var s2 := if matchValue.Some? then BytesField(2, EncAny(matchValue.value)) else [];
      CriterionParts(Value(), s2, s3);
      if operator != 0 {
        i := PutScalarField(dAtA, i, 0x18, SignExtend(operator), 3, start, end, []);
      }
      assert s3 + [] == s3;
      if matchValue.Some? {
        BytesFit(2, EncAny(matchValue.value));
        ghost var now := dAtA[..];
        var size := MarshalAny(matchValue.value, dAtA, i);
        i := PutEmbedded(dAtA, i, 0x12, size, 2, EncAny(matchValue.value), now, start, end, s3);
      } else {
        assert s2 + s3 == s3;
      }
      if |fieldName| > 0 {
        BytesFit(1, fieldName);
        i := PutBytesField(dAtA, i, 0xa, fieldName, 1, start, end, s2 + s3);
      }
      n := end - i;
    }

    method Unmarshal(dAtA: bytes) returns (err: Option<Error>)
      requires |dAtA| < TWO63
      modifies this
      ensures match Parse(CriterionMsg(old(Value())), dAtA, 0)
        case Ok(m) => err == None && m == CriterionMsg(Value())
        case Err(e) => err == Some(e)
    {
      hide Rest, FieldAt, Parse, ReadTag, ToInt32;
      WholeBuffer(CriterionMsg(Value()), dAtA);
      var iNdEx := 0;
      while iNdEx < |dAtA|
        invariant 0 <= iNdEx <= |dAtA|
        invariant Rest(CriterionMsg(old(Value())), dAtA, 0) == Rest(CriterionMsg(Value()), dAtA, iNdEx)
      {
        ghost var now := CriterionMsg(Value());
        var tag := ReadTagOfField(now, dAtA, iNdEx);
        if tag.Err? { return Some(tag.error); }
        var t := tag.value;
        if t.num == 1 {
          var span := ReadChunk(now, dAtA, iNdEx, t);
          if span.Err? { return Some(span.error); }
          fieldName := dAtA[span.value.start..span.value.end];
          Advance(now, dAtA, iNdEx, Chunk(1, fieldName), span.value.end);
          iNdEx := span.value.end;
        } else if t.num == 2 {
          var span := ReadChunk(now, dAtA, iNdEx, t);
          if span.Err? { return Some(span.error); }
          if matchValue.None? {
            matchValue := Some(EMPTY_ANY);
          }
          var payload := dAtA[span.value.start..span.value.end];
          var any := UnmarshalAny(matchValue.value, payload);
          Advance(now, dAtA, iNdEx, Chunk(2, payload), span.value.end);
          if any.Err? { return Some(any.error); }
          matchValue := Some(any.value);
          iNdEx := span.value.end;
        } else if t.num == 3 {
          var v, raw := ReadScalar(now, dAtA, iNdEx, t);
          if v.Err? { return Some(v.error); }
          operator := v.value.value;
          Advance(now, dAtA, iNdEx, Scalar(3, raw), v.value.end);
          iNdEx := v.value.end;
        } else {
          var skippy := ReadUnknown(now, dAtA, iNdEx, t);
          if skippy.Err? { return Some(skippy.error); }
          Advance(now, dAtA, iNdEx, Unknown, skippy.value);
          iNdEx := skippy.value;
        }
      }
      WholeBuffer(CriterionMsg(Value()), dAtA);
      err := None;
    }

    method Equal(that: CriterionMessage?) returns (r: bool)
      ensures r <==> that != null && Value() == that.Value()
    {
      if that == null { return false; }
      if fieldName != that.fieldName { return false; }
      if matchValue != that.matchValue { return false; }
      r := operator == that.operator;
    }
  }

  lemma CriterionParts(c: Criterion, s2: bytes, s3: bytes)
    requires s2 == (if c.matchValue.Some? then BytesField(2, EncAny(c.matchValue.value)) else [])
    requires s3 == OptScalar(3, SignExtend(c.operator))
    ensures EncCriterion(c) == (if c.fieldName == [] then s2 + s3 else BytesField(1, c.fieldName) + (s2 + s3))
  {
    hide BytesField, OptScalar, EncAny, SignExtend;
  }

  lemma Int32Nonzero(v: int32)
    ensures SignExtend(v) == 0 <==> v == 0
  {
  }
}
