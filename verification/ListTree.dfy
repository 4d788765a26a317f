/** The recursive message `CriterionOperation`. */
module ListTree {
  import opened Wrappers
  import opened Varint
  import opened Fields
  import opened CodecBuffer
  import opened Messages
  import opened ListCodec

  // ---- Lists are encoded from the last element to the first ----

  lemma {:induction false} CriteriaSuffix(cs: seq<Criterion>, k: nat)
    requires k <= |cs|
    ensures |EncCriteria(cs[k..])| <= |EncCriteria(cs)|
    ensures k < |cs| ==> EncCriteria(cs[k..]) == BytesField(1, EncCriterion(cs[k])) + EncCriteria(cs[k + 1..])
    decreases k
  {
    hide BytesField, EncCriterion;
    assert cs[0..] == cs;
    if k < |cs| { assert cs[k..][1..] == cs[k + 1..]; }
    if k > 0 {
      CriteriaSuffix(cs, k - 1);
    }
  }

  lemma {:induction false} OperationsSuffix(os: seq<CriterionOperation>, k: nat)
    requires k <= |os|
    ensures |EncOperations(os[k..])| <= |EncOperations(os)|
    ensures k < |os| ==> EncOperations(os[k..]) == BytesField(3, EncOperation(os[k])) + EncOperations(os[k + 1..])
    decreases k
  {
    hide BytesField, EncOperation;
    assert os[0..] == os;
    if k < |os| { assert os[k..][1..] == os[k + 1..]; }
    if k > 0 {
      OperationsSuffix(os, k - 1);
    }
  }

  lemma CriteriaEnds(cs: seq<Criterion>)
    ensures cs[0..] == cs && EncCriteria(cs[|cs|..]) == []
  {
  }

  lemma OperationsEnds(os: seq<CriterionOperation>)
    ensures os[0..] == os && EncOperations(os[|os|..]) == []
  {
  }

  /** The parts of an encoded operation and their lengths. */
  lemma OperationParts(o: CriterionOperation)
    ensures var s2 := OptScalar(2, SignExtend(o.logicalOperator));
      && EncOperation(o) == EncCriteria(o.criterion) + (s2 + EncOperations(o.subOperations))
      && |EncOperation(o)| == |EncCriteria(o.criterion)| + |s2| + |EncOperations(o.subOperations)|
  {
    hide EncCriteria, EncOperations, OptScalar, SignExtend;
  }

  /** What each case of the field switch does to an operation. */
  lemma OperationCases(o: CriterionOperation)
    ensures SchemaOf(OperationMsg(o)) == map[1 := BytesKind, 2 := ScalarKind, 3 := BytesKind]
    ensures Apply(OperationMsg(o), Unknown) == Ok(OperationMsg(o))
  {
  }

  lemma OperationScalar(o: CriterionOperation, v: uint64)
    ensures Apply(OperationMsg(o), Scalar(2, v)) == Ok(OperationMsg(o.(logicalOperator := ToInt32(v))))
  {
    hide ToInt32;
  }

  lemma OperationChild(o: CriterionOperation, p: bytes)
    ensures match Parse(CriterionMsg(EMPTY_CRITERION), p, 0)
      case Ok(m) => Apply(OperationMsg(o), Chunk(1, p))
        == Ok(OperationMsg(o.(criterion := o.criterion + [m.criterion])))
      case Err(e) => Apply(OperationMsg(o), Chunk(1, p)) == Err(e)
    ensures match Parse(OperationMsg(EMPTY_OPERATION), p, 0)
      case Ok(m) =>
        Apply(OperationMsg(o), Chunk(3, p)) == Ok(OperationMsg(o.(subOperations := o.subOperations + [m.operation])))
      case Err(e) => Apply(OperationMsg(o), Chunk(3, p)) == Err(e)
  {
    hide Parse;
  }

  class OperationMessage {
    var criterion: seq<CriterionMessage>
    var logicalOperator: int32
    var subOperations: seq<OperationMessage>
    ghost var Nodes: set<OperationMessage>
    ghost var Leaves: set<CriterionMessage>
    ghost var value: CriterionOperation

    /** A finite tree of messages without nil elements; `value` is what it holds. */
    ghost predicate Valid()
      reads this, Nodes, Leaves
      decreases Nodes
    {
      && this in Nodes
      && |value.criterion| == |criterion|
      && (forall k :: 0 <= k < |criterion| ==>
            criterion[k] in Leaves && criterion[k].Value() == value.criterion[k])
      && value.logicalOperator == logicalOperator
      && |value.subOperations| == |subOperations|
      && (forall k :: 0 <= k < |subOperations| ==>
            && subOperations[k] in Nodes
            && subOperations[k].Nodes <= Nodes - {this} && subOperations[k].Leaves <= Leaves
            && subOperations[k].Valid() && subOperations[k].value == value.subOperations[k])
    }

    constructor ()
      ensures Valid() && fresh(Nodes) && Leaves == {} && value == EMPTY_OPERATION
    {
      criterion, logicalOperator, subOperations := [], 0, [];
      Nodes, Leaves, value := {this}, {}, EMPTY_OPERATION;
    }

    method Size() returns (n: nat)
      requires Valid()
      ensures n == |EncOperation(value)|
      decreases Nodes, 1
    {
      hide *;
      OperationParts(value);
      n := SizeCriteria();
      var l := SizeLogicalOperator();
      n := n + l;
      l := SizeSubOperations();
      n := n + l;
    }

    method SizeCriteria() returns (n: nat)
      requires Valid()
      ensures n == |EncCriteria(value.criterion)|
    {
      CriteriaEnds(value.criterion);
      hide EncCriteria, EncCriterion, BytesField, Sov;
      n := 0;
      var k := 0;
      while k < |criterion|
        invariant 0 <= k <= |criterion|
        invariant n + |EncCriteria(value.criterion[k..])| == |EncCriteria(value.criterion)|
      {
        CriteriaSuffix(value.criterion, k);
        BytesFieldSize(1, EncCriterion(value.criterion[k]));
        var l := criterion[k].Size();
        n := n + 1 + l + Sov(l);
        k := k + 1;
      }
    }

    method SizeLogicalOperator() returns (n: nat)
      requires Valid()
      ensures n == |OptScalar(2, SignExtend(value.logicalOperator))|
    {
      hide ScalarField, SignExtend, Sov;
      Int32Nonzero(logicalOperator);
      ScalarFieldSize(2, SignExtend(logicalOperator));
      n := if logicalOperator != 0 then 1 + Sov(SignExtend(logicalOperator)) else 0;
    }

    method SizeSubOperations() returns (n: nat)
      requires Valid()
      ensures n == |EncOperations(value.subOperations)|
      decreases Nodes, 0
    {
      OperationsEnds(value.subOperations);
      hide EncOperations, EncOperation, BytesField, Sov;
      n := 0;
      var k := 0;
      while k < |subOperations|
        invariant 0 <= k <= |subOperations|
        invariant n + |EncOperations(value.subOperations[k..])| == |EncOperations(value.subOperations)|
      {
        OperationsSuffix(value.subOperations, k);
        BytesFieldSize(3, EncOperation(value.subOperations[k]));
        var l := subOperations[k].Size();
        n := n + 1 + l + Sov(l);
        k := k + 1;
      }
    }

    /** Writes the encoding into the last bytes of dAtA[..end], children before their headers. */
    method MarshalToSizedBuffer(dAtA: array<byte>, end: nat) returns (n: nat)
      requires Valid() && |EncOperation(value)| <= end <= dAtA.Length < TWO63
      modifies dAtA
      ensures n == |EncOperation(value)|
      ensures Emitted(old(dAtA[..]), dAtA[..], end - n, end, EncOperation(value))
      decreases Nodes, 1
    {
      hide EncOperation, EncCriteria, EncOperations, OptScalar, SignExtend, Emitted;
      OperationParts(value);
      ghost var start := dAtA[..];
      var i := MarshalSubOperations(dAtA, end);
      ghost var tail := EncOperations(value.subOperations);
      i := MarshalLogicalOperator(dAtA, i, start, end, tail);
      tail := OptScalar(2, SignExtend(logicalOperator)) + tail;
      i := MarshalCriteria(dAtA, i, start, end, tail);
      n := end - i;
    }

    method MarshalSubOperations(dAtA: array<byte>, end: nat) returns (i: nat)
      requires Valid() && |EncOperations(value.subOperations)| <= end <= dAtA.Length < TWO63
      modifies dAtA
      ensures i == end - |EncOperations(value.subOperations)|
      ensures Emitted(old(dAtA[..]), dAtA[..], i, end, EncOperations(value.subOperations))
      decreases Nodes, 0
    {
      ghost var start := dAtA[..];
      ghost var os := value.subOperations;
      i := end;
      NothingEmitted(start, end);
      OneByteTag(3, 2);
      var iNdEx := |subOperations|;
      assert os[iNdEx..] == [];
      assert os[0..] == os;
      hide EncOperation, BytesField, Emitted;
      while iNdEx > 0
        invariant 0 <= iNdEx <= |subOperations|
        invariant i == end - |EncOperations(os[iNdEx..])|
        invariant Emitted(start, dAtA[..], i, end, EncOperations(os[iNdEx..]))
      {
        iNdEx := iNdEx - 1;
        OperationsSuffix(os, iNdEx);
        ghost var payload := EncOperation(os[iNdEx]);
        BytesFit(3, payload);
        ghost var now := dAtA[..];
        var size := subOperations[iNdEx].MarshalToSizedBuffer(dAtA, i);
        i := PutEmbedded(dAtA, i, 0x1a, size, 3, payload, now, start, end, EncOperations(os[iNdEx + 1..]));
      }
    }

    method MarshalLogicalOperator(dAtA: array<byte>, i: nat, ghost start: bytes, ghost end: nat, ghost tail: bytes)
      returns (j: nat)
      requires |OptScalar(2, SignExtend(logicalOperator))| <= i && Emitted(start, dAtA[..], i, end, tail)
      modifies dAtA
      ensures j == i - |OptScalar(2, SignExtend(logicalOperator))|
      ensures Emitted(start, dAtA[..], j, end, OptScalar(2, SignExtend(logicalOperator)) + tail)
    {
      hide ScalarField, SignExtend, Emitted;
      OneByteTag(2, 0);
      Int32Nonzero(logicalOperator);
      j := i;
      if logicalOperator != 0 {
        j := PutScalarField(dAtA, i, 0x10, SignExtend(logicalOperator), 2, start, end, tail);
      } else {
        assert [] + tail == tail;
      }
    }

    method MarshalCriteria(dAtA: array<byte>, at: nat, ghost start: bytes, ghost end: nat, ghost tail: bytes)
      returns (i: nat)
      requires Valid() && |EncCriteria(value.criterion)| <= at <= dAtA.Length < TWO63
      requires Emitted(start, dAtA[..], at, end, tail)
      modifies dAtA
      ensures i == at - |EncCriteria(value.criterion)|
      ensures Emitted(start, dAtA[..], i, end, EncCriteria(value.criterion) + tail)
    {
      ghost var cs := value.criterion;
      i := at;
      OneByteTag(1, 2);
      var iNdEx := |criterion|;
      CriteriaEnds(cs);
      assert [] + tail == tail;
      hide *;
      while iNdEx > 0
        invariant 0 <= iNdEx <= |criterion| == |cs| && cs == value.criterion
        invariant i == at - |EncCriteria(cs[iNdEx..])|
        invariant Emitted(start, dAtA[..], i, end, EncCriteria(cs[iNdEx..]) + tail)
      {
        iNdEx := iNdEx - 1;
        CriteriaSuffix(cs, iNdEx);
        ghost var behind := EncCriteria(cs[iNdEx + 1..]) + tail;
        i := MarshalOneCriterion(dAtA, i, iNdEx, start, end, behind);
        Regroup(BytesField(1, EncCriterion(cs[iNdEx])), EncCriteria(cs[iNdEx + 1..]), tail);
      }
    }

    method MarshalOneCriterion(dAtA: array<byte>, at: nat, k: nat, ghost start: bytes, ghost end: nat,
                               ghost tail: bytes)
      returns (i: nat)
      requires Valid() && k < |criterion|
      requires |BytesField(1, EncCriterion(value.criterion[k]))| <= at <= dAtA.Length < TWO63
      requires Emitted(start, dAtA[..], at, end, tail)
      modifies dAtA
      ensures i == at - |BytesField(1, EncCriterion(value.criterion[k]))|
      ensures Emitted(start, dAtA[..], i, end, BytesField(1, EncCriterion(value.criterion[k])) + tail)
    {
      hide EncCriterion, BytesField, Emitted;
      OneByteTag(1, 2);
      ghost var payload := EncCriterion(value.criterion[k]);
      BytesFit(1, payload);
      ghost var now := dAtA[..];
      var size := criterion[k].MarshalToSizedBuffer(dAtA, at);
      i := PutEmbedded(dAtA, at, 0xa, size, 1, payload, now, start, end, tail);
    }

    /** `Marshal`: a buffer of exactly `Size()` bytes holding the encoding. */
    method Marshal() returns (dAtA: array<byte>)
      requires Valid() && |EncOperation(value)| < TWO63
      ensures fresh(dAtA) && dAtA[..] == EncOperation(value)
    {
      hide EncOperation;
      var size := Size();
      dAtA := new byte[size];
      var n := MarshalToSizedBuffer(dAtA, size);
    }

    /** Merges the bytes into this message; new children are allocated, old ones are left alone. */
    method Unmarshal(dAtA: bytes) returns (err: Option<Error>)
      requires Valid() && |dAtA| < TWO63
      modifies this
      ensures err.None? ==> Valid() && fresh(Nodes - old(Nodes)) && fresh(Leaves - old(Leaves))
      ensures match Parse(OperationMsg(old(value)), dAtA, 0)
        case Ok(m) => err == None && m == OperationMsg(value)
        case Err(e) => err == Some(e)
      decreases |dAtA|, 1
    {
      hide *;
      WholeBuffer(OperationMsg(value), dAtA);
      ghost var start := value;
      var iNdEx := 0;
      while iNdEx < |dAtA|
        invariant 0 <= iNdEx <= |dAtA|
        invariant Valid() && fresh(Nodes - old(Nodes)) && fresh(Leaves - old(Leaves))
        invariant Rest(OperationMsg(start), dAtA, 0) == Rest(OperationMsg(value), dAtA, iNdEx)
      {
        var e, next := UnmarshalField(dAtA, iNdEx);
        if e.Some? { return e; }
        iNdEx := next;
      }
      WholeBuffer(OperationMsg(value), dAtA);
      err := None;
    }

    /** One turn of the loop: the tag, then the case for its field number. */
    method UnmarshalField(dAtA: bytes, i: nat) returns (err: Option<Error>, j: nat)
      requires Valid() && i < |dAtA| < TWO63
      modifies this
      ensures err.Some? ==> Rest(OperationMsg(old(value)), dAtA, i) == Err(err.value)
      ensures err.None? ==>
        && Valid() && fresh(Nodes - old(Nodes)) && fresh(Leaves - old(Leaves)) && i < j <= |dAtA|
        && Rest(OperationMsg(old(value)), dAtA, i) == Rest(OperationMsg(value), dAtA, j)
      decreases |dAtA|, 0
    {
      hide *;
      OperationCases(value);
      ghost var now := OperationMsg(value);
      j := i;
      var tag := ReadTagOfField(now, dAtA, i);
      if tag.Err? { return Some(tag.error), j; }
      var t := tag.value;
      if t.num == 1 || t.num == 3 {
        var span := ReadChunk(now, dAtA, i, t);
        if span.Err? { return Some(span.error), j; }
        j := span.value.end;
        var payload := dAtA[span.value.start..j];
        Advance(now, dAtA, i, Chunk(t.num, payload), j);
        OperationChild(value, payload);
        if t.num == 1 {
          var c := new CriterionMessage();
          err := c.Unmarshal(payload);
          if err.Some? { return; }
          AppendCriterion(c);
        } else {
          var s := new OperationMessage();
          err := s.Unmarshal(payload);
          if err.Some? { return; }
          AppendSubOperation(s);
        }
      } else if t.num == 2 {
        var v, raw := ReadScalar(now, dAtA, i, t);
        if v.Err? { return Some(v.error), j; }
        j := v.value.end;
        Advance(now, dAtA, i, Scalar(2, raw), j);
        OperationScalar(value, raw);
        SetLogicalOperator(v.value.value);
        err := None;
      } else {
        var skippy := ReadUnknown(now, dAtA, i, t);
        if skippy.Err? { return Some(skippy.error), j; }
        j := skippy.value;
        Advance(now, dAtA, i, Unknown, j);
        err := None;
      }
    }

    method AppendCriterion(c: CriterionMessage)
      requires Valid()
      modifies this
      ensures Valid() && Nodes == old(Nodes) && Leaves == old(Leaves) + {c}
      ensures value == old(value).(criterion := old(value).criterion + [c.Value()])
    {
      criterion := criterion + [c];
      Leaves := Leaves + {c};
      value := value.(criterion := value.criterion + [c.Value()]);
    }

    method SetLogicalOperator(v: int32)
      requires Valid()
      modifies this
      ensures Valid() && Nodes == old(Nodes) && Leaves == old(Leaves)
      ensures value == old(value).(logicalOperator := v)
    {
      logicalOperator := v;
      value := value.(logicalOperator := v);
    }

    method AppendSubOperation(s: OperationMessage)
      requires Valid() && s.Valid() && this !in s.Nodes
      modifies this
      ensures Valid() && Nodes == old(Nodes) + s.Nodes && Leaves == old(Leaves) + s.Leaves
      ensures value == old(value).(subOperations := old(value).subOperations + [s.value])
    {
      subOperations := subOperations + [s];
      Nodes := Nodes + s.Nodes;
      Leaves := Leaves + s.Leaves;
      value := value.(subOperations := value.subOperations + [s.value]);
    }

    method Equal(that: OperationMessage?) returns (r: bool)
      requires Valid() && (that != null ==> that.Valid())
      ensures r <==> that != null && value == that.value
      decreases Nodes, 1
    {
      if that == null { return false; }
      r := EqualCriteria(that);
      if !r { return; }
      if logicalOperator != that.logicalOperator { return false; }
      r := EqualSubOperations(that);
    }

    method EqualCriteria(that: OperationMessage) returns (r: bool)
      requires Valid() && that.Valid()
      ensures r <==> value.criterion == that.value.criterion
    {
      if |criterion| != |that.criterion| { return false; }
      var i := 0;
      while i < |criterion|
        invariant 0 <= i <= |criterion|
        invariant value.criterion[..i] == that.value.criterion[..i]
      {
        var same := criterion[i].Equal(that.criterion[i]);
        if !same { return false; }
        i := i + 1;
      }
      r := true;
    }

    method EqualSubOperations(that: OperationMessage) returns (r: bool)
      requires Valid() && that.Valid()
      ensures r <==> value.subOperations == that.value.subOperations
      decreases Nodes, 0
    {
      if |subOperations| != |that.subOperations| { return false; }
      var i := 0;
      while i < |subOperations|
        invariant 0 <= i <= |subOperations|
        invariant value.subOperations[..i] == that.value.subOperations[..i]
      {
        var same := subOperations[i].Equal(that.subOperations[i]);
        if !same { return false; }
        i := i + 1;
      }
      r := true;
    }
  }
}
