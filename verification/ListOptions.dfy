/** The top-level message `ListOptionsExt`, which holds every other message of list.proto. */
module ListOptions {
  import opened Wrappers
  import opened Varint
  import opened Fields
  import opened CodecBuffer
  import opened Messages
  import opened ListCodec
  import opened ListTree

  lemma {:induction false} OrderBysSuffix(os: seq<OrderBy>, k: nat)
    requires k <= |os|
    ensures |EncOrderBys(os[k..])| <= |EncOrderBys(os)|
    ensures k < |os| ==> EncOrderBys(os[k..]) == BytesField(1, EncOrderBy(os[k])) + EncOrderBys(os[k + 1..])
    decreases k
  {
    hide BytesField, EncOrderBy;
    assert os[0..] == os;
    if k < |os| { assert os[k..][1..] == os[k + 1..]; }
    if k > 0 {
      OrderBysSuffix(os, k - 1);
    }
  }

  lemma {:induction false} StringsSuffix(num: nat, ss: seq<bytes>, k: nat)
    requires k <= |ss|
    ensures |EncStrings(num, ss[k..])| <= |EncStrings(num, ss)|
    ensures k < |ss| ==> EncStrings(num, ss[k..]) == BytesField(num, ss[k]) + EncStrings(num, ss[k + 1..])
    decreases k
  {
    hide BytesField;
    assert ss[0..] == ss;
    if k < |ss| { assert ss[k..][1..] == ss[k + 1..]; }
    if k > 0 {
      StringsSuffix(num, ss, k - 1);
    }
  }

  lemma ListEnds(os: seq<OrderBy>, num: nat, ss: seq<bytes>)
    ensures os[0..] == os && EncOrderBys(os[|os|..]) == []
    ensures ss[0..] == ss && EncStrings(num, ss[|ss|..]) == []
  {
  }

  function EncOptOperation(o: Option<CriterionOperation>): bytes {
    if o.Some? then BytesField(2, EncOperation(o.value)) else []
  }

  function EncOptPagination(p: Option<PaginationSpec>): bytes {
    if p.Some? then BytesField(3, EncPagination(p.value)) else []
  }

  lemma ListOptionsParts(l: ListOptionsExt)
    ensures EncListOptions(l) == EncOrderBys(l.orderBy) + (EncOptOperation(l.operation)
              + (EncOptPagination(l.pagination) + EncStrings(4, l.returnedFieldSkipList)))
    ensures |EncListOptions(l)| == |EncOrderBys(l.orderBy)| + |EncOptOperation(l.operation)|
              + |EncOptPagination(l.pagination)| + |EncStrings(4, l.returnedFieldSkipList)|
  {
    hide EncOrderBys, EncOperation, EncPagination, EncStrings, BytesField;
  }

  lemma ListOptionsCases(l: ListOptionsExt, p: bytes)
    ensures SchemaOf(ListOptionsMsg(l)) == map[1 := BytesKind, 2 := BytesKind, 3 := BytesKind, 4 := BytesKind]
    ensures Apply(ListOptionsMsg(l), Unknown) == Ok(ListOptionsMsg(l))
    ensures Apply(ListOptionsMsg(l), Chunk(4, p))
         == Ok(ListOptionsMsg(l.(returnedFieldSkipList := l.returnedFieldSkipList + [p])))
  {
    hide Parse;
  }

  lemma ListOptionsOrderBy(l: ListOptionsExt, p: bytes)
    ensures var r := Parse(OrderByMsg(EMPTY_ORDER_BY), p, 0);
      Apply(ListOptionsMsg(l), Chunk(1, p))
        == if r.Ok? then Ok(ListOptionsMsg(l.(orderBy := l.orderBy + [r.value.orderBy]))) else Err(r.error)
  {
    hide Parse;
  }

  lemma ListOptionsOperation(l: ListOptionsExt, p: bytes)
    ensures var r := Parse(OperationMsg(OrElse(l.operation, EMPTY_OPERATION)), p, 0);
      Apply(ListOptionsMsg(l), Chunk(2, p))
        == if r.Ok? then Ok(ListOptionsMsg(l.(operation := Some(r.value.operation)))) else Err(r.error)
  {
    hide Parse;
  }

  lemma ListOptionsPagination(l: ListOptionsExt, p: bytes)
    ensures var r := Parse(PaginationMsg(OrElse(l.pagination, EMPTY_PAGINATION)), p, 0);
      Apply(ListOptionsMsg(l), Chunk(3, p))
        == if r.Ok? then Ok(ListOptionsMsg(l.(pagination := Some(r.value.pagination)))) else Err(r.error)
  {
    hide Parse;
  }

  class ListOptionsMessage {
    var orderBy: seq<OrderByMessage>
    var operation: OperationMessage?
    var pagination: PaginationMessage?
    var returnedFieldSkipList: seq<bytes>
    ghost var value: ListOptionsExt

    ghost predicate Valid()
      reads this, orderBy, pagination
      reads operation, if operation == null then {} else operation.Nodes
      reads if operation == null then {} else operation.Leaves
    {
      && |value.orderBy| == |orderBy|
      && (forall k :: 0 <= k < |orderBy| ==> orderBy[k].Value() == value.orderBy[k])
      && (if operation == null then value.operation == None
          else operation.Valid() && value.operation == Some(operation.value))
      && value.pagination == (if pagination == null then None else Some(pagination.Value()))
      && value.returnedFieldSkipList == returnedFieldSkipList
    }

    constructor ()
      ensures Valid() && value == EMPTY_LIST_OPTIONS && operation == null && pagination == null
    {
      orderBy, operation, pagination, returnedFieldSkipList := [], null, null, [];
      value := EMPTY_LIST_OPTIONS;
    }

    method Size() returns (n: nat)
      requires Valid()
      ensures n == |EncListOptions(value)|
    {
      hide EncOrderBy, EncOperation, EncPagination, EncListOptions, BytesField, Sov;
      ListOptionsParts(value);
      ListEnds(value.orderBy, 4, value.returnedFieldSkipList);
      n := 0;
      var k := 0;
      while k < |orderBy|
        invariant 0 <= k <= |orderBy|
        invariant n + |EncOrderBys(value.orderBy[k..])| == |EncOrderBys(value.orderBy)|
      {
        OrderBysSuffix(value.orderBy, k);
        BytesFieldSize(1, EncOrderBy(value.orderBy[k]));
        var l := orderBy[k].Size();
        n := n + 1 + l + Sov(l);
        k := k + 1;
      }
      if operation != null {
        var l := operation.Size();
        BytesFieldSize(2, EncOperation(operation.value));
        n := n + 1 + l + Sov(l);
      }
      if pagination != null {
        var l := pagination.Size();
        BytesFieldSize(3, EncPagination(pagination.Value()));
        n := n + 1 + l + Sov(l);
      }
      ghost var front := n;
      k := 0;
      while k < |returnedFieldSkipList|
        invariant 0 <= k <= |returnedFieldSkipList|
        invariant n + |EncStrings(4, value.returnedFieldSkipList[k..])|
               == front + |EncStrings(4, value.returnedFieldSkipList)|
      {
        StringsSuffix(4, value.returnedFieldSkipList, k);
        var l := |returnedFieldSkipList[k]|;
        BytesFieldSize(4, returnedFieldSkipList[k]);
        n := n + 1 + l + Sov(l);
        k := k + 1;
      }
    }

    /** Writes the encoding into the last bytes of dAtA[..end], last field first. */
    method MarshalToSizedBuffer(dAtA: array<byte>, end: nat) returns (n: nat)
      requires Valid() && |EncListOptions(value)| <= end <= dAtA.Length < TWO63
      modifies dAtA
      ensures n == |EncListOptions(value)|
      ensures Emitted(old(dAtA[..]), dAtA[..], end - n, end, EncListOptions(value))
    {
      hide *;
      ListOptionsParts(value);
      ghost var start := dAtA[..];
      var i := MarshalSkipList(dAtA, end);
      ghost var tail := EncStrings(4, value.returnedFieldSkipList);
      i := MarshalPagination(dAtA, i, start, end, tail);
      tail := EncOptPagination(value.pagination) + tail;
      i := MarshalOperation(dAtA, i, start, end, tail);
      tail := EncOptOperation(value.operation) + tail;
      i := MarshalOrderBys(dAtA, i, start, end, tail);
      n := end - i;
    }

    method MarshalSkipList(dAtA: array<byte>, end: nat) returns (i: nat)
      requires Valid() && |EncStrings(4, value.returnedFieldSkipList)| <= end <= dAtA.Length < TWO63
      modifies dAtA
      ensures i == end - |EncStrings(4, value.returnedFieldSkipList)|
      ensures Emitted(old(dAtA[..]), dAtA[..], i, end, EncStrings(4, value.returnedFieldSkipList))
    {
      ghost var start := dAtA[..];
      ghost var ss := value.returnedFieldSkipList;
      i := end;
      NothingEmitted(start, end);
      OneByteTag(4, 2);
      var iNdEx := |returnedFieldSkipList|;
      ListEnds([], 4, ss);
      assert ss == returnedFieldSkipList;
      hide *;
      while iNdEx > 0
        invariant 0 <= iNdEx <= |ss| && ss == returnedFieldSkipList
        invariant i == end - |EncStrings(4, ss[iNdEx..])|
        invariant Emitted(start, dAtA[..], i, end, EncStrings(4, ss[iNdEx..]))
      {
        iNdEx := iNdEx - 1;
        StringsSuffix(4, ss, iNdEx);
        BytesFit(4, ss[iNdEx]);
        i := PutBytesField(dAtA, i, 0x22, returnedFieldSkipList[iNdEx], 4, start, end, EncStrings(4, ss[iNdEx + 1..]));
      }
    }

    method MarshalPagination(dAtA: array<byte>, at: nat, ghost start: bytes, ghost end: nat, ghost tail: bytes)
      returns (i: nat)
      requires Valid() && |EncOptPagination(value.pagination)| <= at <= dAtA.Length < TWO63
      requires Emitted(start, dAtA[..], at, end, tail)
      modifies dAtA
      ensures i == at - |EncOptPagination(value.pagination)|
      ensures Emitted(start, dAtA[..], i, end, EncOptPagination(value.pagination) + tail)
    {
      hide EncPagination, BytesField, Emitted;
      i := at;
      OneByteTag(3, 2);
      if pagination != null {
        ghost var payload := EncPagination(pagination.Value());
        BytesFit(3, payload);
        ghost var now := dAtA[..];
        var size := pagination.MarshalToSizedBuffer(dAtA, i);
        i := PutEmbedded(dAtA, i, 0x1a, size, 3, payload, now, start, end, tail);
      } else {
        assert [] + tail == tail;
      }
    }

    method MarshalOperation(dAtA: array<byte>, at: nat, ghost start: bytes, ghost end: nat, ghost tail: bytes)
      returns (i: nat)
      requires Valid() && |EncOptOperation(value.operation)| <= at <= dAtA.Length < TWO63
      requires Emitted(start, dAtA[..], at, end, tail)
      modifies dAtA
      ensures i == at - |EncOptOperation(value.operation)|
      ensures Emitted(start, dAtA[..], i, end, EncOptOperation(value.operation) + tail)
    {
      hide EncOperation, BytesField, Emitted;
      i := at;
      OneByteTag(2, 2);
      if operation != null {
        ghost var payload := EncOperation(operation.value);
        BytesFit(2, payload);
        ghost var now := dAtA[..];
        var size := operation.MarshalToSizedBuffer(dAtA, i);
        i := PutEmbedded(dAtA, i, 0x12, size, 2, payload, now, start, end, tail);
      } else {
        assert [] + tail == tail;
      }
    }

    method MarshalOrderBys(dAtA: array<byte>, at: nat, ghost start: bytes, ghost end: nat, ghost tail: bytes)
      returns (i: nat)
      requires Valid() && |EncOrderBys(value.orderBy)| <= at <= dAtA.Length < TWO63
      requires Emitted(start, dAtA[..], at, end, tail)
      modifies dAtA
      ensures i == at - |EncOrderBys(value.orderBy)|
      ensures Emitted(start, dAtA[..], i, end, EncOrderBys(value.orderBy) + tail)
    {
      hide *;
      ghost var os := value.orderBy;
      i := at;
      var iNdEx := |orderBy|;
      ListEnds(os, 4, []);
      OrderBysMatch();
      assert [] + tail == tail;
      while iNdEx > 0
        invariant 0 <= iNdEx <= |orderBy| == |os| && os == value.orderBy
        invariant i == at - |EncOrderBys(os[iNdEx..])|
        invariant Emitted(start, dAtA[..], i, end, EncOrderBys(os[iNdEx..]) + tail)
      {
        iNdEx := iNdEx - 1;
        OrderBysSuffix(os, iNdEx);
        ghost var behind := EncOrderBys(os[iNdEx + 1..]) + tail;
        i := MarshalOneOrderBy(dAtA, i, iNdEx, start, end, behind);
        Regroup(BytesField(1, EncOrderBy(os[iNdEx])), EncOrderBys(os[iNdEx + 1..]), tail);
      }
    }

    lemma OrderBysMatch()
      requires Valid()
      ensures |value.orderBy| == |orderBy|
    {
    }

    method MarshalOneOrderBy(dAtA: array<byte>, at: nat, k: nat, ghost start: bytes, ghost end: nat, ghost tail: bytes)
      returns (i: nat)
      requires Valid() && k < |orderBy|
      requires |BytesField(1, EncOrderBy(value.orderBy[k]))| <= at <= dAtA.Length < TWO63
      requires Emitted(start, dAtA[..], at, end, tail)
      modifies dAtA
      ensures i == at - |BytesField(1, EncOrderBy(value.orderBy[k]))|
      ensures Emitted(start, dAtA[..], i, end, BytesField(1, EncOrderBy(value.orderBy[k])) + tail)
    {
      hide EncOrderBy, BytesField, Emitted;
      OneByteTag(1, 2);
      ghost var payload := EncOrderBy(value.orderBy[k]);
      BytesFit(1, payload);
      ghost var now := dAtA[..];
      var size := orderBy[k].MarshalToSizedBuffer(dAtA, at);
      i := PutEmbedded(dAtA, at, 0xa, size, 1, payload, now, start, end, tail);
    }

    /** `Marshal`: a buffer of exactly `Size()` bytes holding the encoding. */
    method Marshal() returns (dAtA: array<byte>)
      requires Valid() && |EncListOptions(value)| < TWO63
      ensures fresh(dAtA) && dAtA[..] == EncListOptions(value)
    {
      hide EncListOptions;
      var size := Size();
      dAtA := new byte[size];
      var n := MarshalToSizedBuffer(dAtA, size);
    }

    /** Merges the bytes into this message: list elements are appended as new objects, an operation or
        pagination already present is updated in place. */
    method Unmarshal(dAtA: bytes) returns (err: Option<Error>)
      requires Valid() && |dAtA| < TWO63
      modifies this, operation, pagination
      ensures err.None? ==> Valid()
      ensures match Parse(ListOptionsMsg(old(value)), dAtA, 0)
        case Ok(m) => err == None && m == ListOptionsMsg(value)
        case Err(e) => err == Some(e)
    {
      hide *;
      WholeBuffer(ListOptionsMsg(value), dAtA);
      ghost var start := value;
      var iNdEx := 0;
      while iNdEx < |dAtA|
        invariant 0 <= iNdEx <= |dAtA|
        invariant Valid()
        invariant operation == old(operation) || fresh(operation)
        invariant pagination == old(pagination) || fresh(pagination)
        invariant Rest(ListOptionsMsg(start), dAtA, 0) == Rest(ListOptionsMsg(value), dAtA, iNdEx)
      {
        var e, next := UnmarshalField(dAtA, iNdEx);
        if e.Some? { return e; }
        iNdEx := next;
      }
      WholeBuffer(ListOptionsMsg(value), dAtA);
      err := None;
    }

    /** One turn of the loop: the tag, then the case for its field number. */
    method UnmarshalField(dAtA: bytes, i: nat) returns (err: Option<Error>, j: nat)
      requires Valid() && i < |dAtA| < TWO63
      modifies this, operation, pagination
      ensures err.Some? ==> Rest(ListOptionsMsg(old(value)), dAtA, i) == Err(err.value)
      ensures err.None? ==>
        && Valid() && i < j <= |dAtA|
        && (operation == old(operation) || fresh(operation))
        && (pagination == old(pagination) || fresh(pagination))
        && Rest(ListOptionsMsg(old(value)), dAtA, i) == Rest(ListOptionsMsg(value), dAtA, j)
    {
      hide *;
      ListOptionsCases(value, []);
      ghost var now := ListOptionsMsg(value);
      j := i;
      var tag := ReadTagOfField(now, dAtA, i);
      if tag.Err? { return Some(tag.error), j; }
      var t := tag.value;
      if 1 <= t.num <= 4 {
        var span := ReadChunk(now, dAtA, i, t);
        if span.Err? { return Some(span.error), j; }
        j := span.value.end;
        var payload := dAtA[span.value.start..j];
        Advance(now, dAtA, i, Chunk(t.num, payload), j);
        if t.num == 1 {
          err := AddOrderBy(payload);
        } else if t.num == 2 {
          err := MergeOperation(payload);
        } else if t.num == 3 {
          err := MergePagination(payload);
        } else {
          ListOptionsCases(value, payload);
          AddSkipped(payload);
          err := None;
        }
      } else {
        var skippy := ReadUnknown(now, dAtA, i, t);
        if skippy.Err? { return Some(skippy.error), j; }
        j := skippy.value;
        Advance(now, dAtA, i, Unknown, j);
        err := None;
      }
    }

    method AddOrderBy(payload: bytes) returns (err: Option<Error>)
      requires Valid() && |payload| < TWO63
      modifies this
      ensures operation == old(operation) && pagination == old(pagination)
      ensures var r := Apply(ListOptionsMsg(old(value)), Chunk(1, payload));
        if r.Err? then err == Some(r.error) else err == None && Valid() && r.value == ListOptionsMsg(value)
    {
      hide Apply, Parse, EmptyOf, OperationMessage.Valid;
      ListOptionsOrderBy(value, payload);
      var o := new OrderByMessage();
      err := o.Unmarshal(payload);
      if err.Some? { return; }
      orderBy := orderBy + [o];
      value := value.(orderBy := value.orderBy + [o.Value()]);
    }

    method MergeOperation(payload: bytes) returns (err: Option<Error>)
      requires Valid() && |payload| < TWO63
      modifies this, operation
      ensures pagination == old(pagination) && (operation == old(operation) || fresh(operation))
      ensures var r := Apply(ListOptionsMsg(old(value)), Chunk(2, payload));
        if r.Err? then err == Some(r.error) else err == None && Valid() && r.value == ListOptionsMsg(value)
    {
      hide Apply, Parse, EmptyOf, OperationMessage.Valid;
      ListOptionsOperation(value, payload);
      if operation == null {
        operation := new OperationMessage();
      }
      err := operation.Unmarshal(payload);
      if err.Some? { return; }
      value := value.(operation := Some(operation.value));
    }

    method MergePagination(payload: bytes) returns (err: Option<Error>)
      requires Valid() && |payload| < TWO63
      modifies this, pagination
      ensures operation == old(operation) && (pagination == old(pagination) || fresh(pagination))
      ensures var r := Apply(ListOptionsMsg(old(value)), Chunk(3, payload));
        if r.Err? then err == Some(r.error) else err == None && Valid() && r.value == ListOptionsMsg(value)
    {
      hide Apply, Parse, EmptyOf, OperationMessage.Valid;
      ListOptionsPagination(value, payload);
      if pagination == null {
        pagination := new PaginationMessage();
      }
      err := pagination.Unmarshal(payload);
      if err.Some? { return; }
      value := value.(pagination := Some(pagination.Value()));
    }

    method AddSkipped(payload: bytes)
      requires Valid()
      modifies this
      ensures Valid() && operation == old(operation) && pagination == old(pagination)
      ensures value == old(value).(returnedFieldSkipList := old(value).returnedFieldSkipList + [payload])
    {
      returnedFieldSkipList := returnedFieldSkipList + [payload];
      value := value.(returnedFieldSkipList := value.returnedFieldSkipList + [payload]);
    }

    method Equal(that: ListOptionsMessage?) returns (r: bool)
      requires Valid() && (that != null ==> that.Valid())
      ensures r <==> that != null && value == that.value
    {
      if that == null { return false; }
      if |orderBy| != |that.orderBy| { return false; }
      var i := 0;
      while i < |orderBy|
        invariant 0 <= i <= |orderBy|
        invariant value.orderBy[..i] == that.value.orderBy[..i]
      {
        var same := orderBy[i].Equal(that.orderBy[i]);
        if !same { return false; }
        i := i + 1;
      }
      assert value.orderBy == that.value.orderBy;
      if operation == null {
        if that.operation != null { return false; }
      } else {
        var same := operation.Equal(that.operation);
        if !same { return false; }
      }
      if pagination == null {
        if that.pagination != null { return false; }
      } else {
        var same := pagination.Equal(that.pagination);
        if !same { return false; }
      }
      if |returnedFieldSkipList| != |that.returnedFieldSkipList| { return false; }
      i := 0;
      while i < |returnedFieldSkipList|
        invariant 0 <= i <= |returnedFieldSkipList|
        invariant forall k :: 0 <= k < i ==> returnedFieldSkipList[k] == that.returnedFieldSkipList[k]
      {
        if returnedFieldSkipList[i] != that.returnedFieldSkipList[i] { return false; }
        i := i + 1;
      }
      r := true;
    }
  }
}
