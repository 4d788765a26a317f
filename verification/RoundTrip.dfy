/** `Unmarshal` into an empty message undoes `Marshal`, for whole trees. */
module RoundTrip {
  import opened Wrappers
  import opened Varint
  import opened Fields
  import opened Messages
  import opened MessageLaws

  /** Decoding exactly the bytes b turns m into n. */
  predicate Decodes(m: Message, b: bytes, n: Message) {
    Parse(m, b, 0) == Ok(n)
  }

  lemma Then(m: Message, a: bytes, m1: Message, c: bytes, m2: Message)
    requires |a + c| < TWO63 && Decodes(m, a, m1) && Decodes(m1, c, m2)
    ensures Decodes(m, a + c, m2)
  {
    hide Parse;
    ParseConcat(m, a, c, 0, 0);
  }

  lemma OptScalarDecodes(m: Message, num: int, v: uint64)
    requires 0 < num < 0x2000_0000 && num in SchemaOf(m) && SchemaOf(m)[num].ScalarKind?
    requires v == 0 ==> ApplyScalar(m, num, 0) == m
    ensures Decodes(m, OptScalar(num, v), ApplyScalar(m, num, v))
  {
    hide SchemaOf, ApplyScalar, ScalarField;
    if v != 0 { ParseScalarField(m, num, v); }
  }

  lemma OptFlagDecodes(m: Message, num: int, b: bool)
    requires 0 < num < 0x2000_0000 && num in SchemaOf(m) && SchemaOf(m)[num].ScalarKind?
    ensures Decodes(m, OptFlag(num, b), if b then ApplyScalar(m, num, 1) else m)
  {
    hide SchemaOf, ApplyScalar, ScalarField;
    if b { ParseScalarField(m, num, 1); }
  }

  lemma OptBytesDecodes(m: Message, num: int, p: bytes)
    requires 0 < num < 0x2000_0000 && num in SchemaOf(m) && SchemaOf(m)[num].BytesKind?
    requires Child(m, num).None? && |OptBytes(num, p)| < TWO63
    requires p == [] ==> ApplyBytes(m, num, []) == m
    ensures Decodes(m, OptBytes(num, p), ApplyBytes(m, num, p))
  {
    hide SchemaOf, ApplyBytes, BytesField, Child;
    if p != [] { ParseBytesField(m, num, p); }
  }

  lemma EmbeddedDecodes(m: Message, num: int, c: Message)
    requires 0 < num < 0x2000_0000 && num in SchemaOf(m) && SchemaOf(m)[num].BytesKind?
    requires |BytesField(num, Enc(c))| < TWO63
    requires Child(m, num).Some? && Decodes(Child(m, num).value, Enc(c), c)
    ensures SameKind(Child(m, num).value, c)
    ensures Decodes(m, BytesField(num, Enc(c)), Attach(m, num, c))
  {
    hide SchemaOf, Attach, BytesField, Child, Enc;
    ParseBytesField(m, num, Enc(c));
  }

  lemma {:induction false} AnyRoundTrip(a: Any)
    requires |EncAny(a)| < TWO63
    ensures Decodes(AnyMsg(EMPTY_ANY), EncAny(a), AnyMsg(a))
  {
    hide Decodes, OptBytes;
    var m := AnyMsg(EMPTY_ANY);
    var m1 := AnyMsg(Any(a.typeUrl, []));
    OptBytesDecodes(m, 1, a.typeUrl);
    OptBytesDecodes(m1, 2, a.value);
    Then(m, OptBytes(1, a.typeUrl), m1, OptBytes(2, a.value), AnyMsg(a));
  }

  lemma {:induction false} OrderByRoundTrip(o: OrderBy)
    requires |EncOrderBy(o)| < TWO63
    ensures Decodes(OrderByMsg(EMPTY_ORDER_BY), EncOrderBy(o), OrderByMsg(o))
  {
    hide Decodes, OptBytes, OptScalar, SignExtend, ToInt32;
    var m := OrderByMsg(EMPTY_ORDER_BY);
    var m1 := OrderByMsg(OrderBy(o.field, 0));
    OptBytesDecodes(m, 1, o.field);
    Int32Zero();
    Int32RoundTrip(o.dir);
    OptScalarDecodes(m1, 2, SignExtend(o.dir));
    Then(m, OptBytes(1, o.field), m1, OptScalar(2, SignExtend(o.dir)), OrderByMsg(o));
  }

  lemma Int32Zero()
    ensures ToInt32(0) == 0 && SignExtend(0) == 0
  {
  }

  lemma {:induction false} PaginationRoundTrip(p: PaginationSpec)
    requires |EncPagination(p)| < TWO63
    ensures Decodes(PaginationMsg(EMPTY_PAGINATION), EncPagination(p), PaginationMsg(p))
  {
    hide Decodes, OptScalar, SignExtend, ToInt32;
    var m := PaginationMsg(EMPTY_PAGINATION);
    var m1 := PaginationMsg(PaginationSpec(p.offset, 0));
    Int32Zero();
    Int32RoundTrip(p.offset);
    Int32RoundTrip(p.limit);
    OptScalarDecodes(m, 1, SignExtend(p.offset));
    OptScalarDecodes(m1, 2, SignExtend(p.limit));
    Then(m, OptScalar(1, SignExtend(p.offset)), m1, OptScalar(2, SignExtend(p.limit)), PaginationMsg(p));
  }

  lemma {:induction false} CriterionRoundTrip(c: Criterion)
    requires |EncCriterion(c)| < TWO63
    ensures Decodes(CriterionMsg(EMPTY_CRITERION), EncCriterion(c), CriterionMsg(c))
  {
    hide Parse, Decodes, OptBytes, OptScalar, SignExtend, ToInt32, BytesField, EncAny;
    var m := CriterionMsg(EMPTY_CRITERION);
    var m1 := CriterionMsg(Criterion(c.fieldName, None, 0));
    var m2 := CriterionMsg(Criterion(c.fieldName, c.matchValue, 0));
    var s1 := OptBytes(1, c.fieldName);
    OptBytesDecodes(m, 1, c.fieldName);
    var s2 := if c.matchValue.Some? then BytesField(2, EncAny(c.matchValue.value)) else [];
    if c.matchValue.Some? {
      BytesFieldLength(2, EncAny(c.matchValue.value));
      AnyRoundTrip(c.matchValue.value);
      EmbeddedDecodes(m1, 2, AnyMsg(c.matchValue.value));
    } else {
      DecodesNothing(m1);
    }
    Int32Zero();
    Int32RoundTrip(c.operator);
    OptScalarDecodes(m2, 3, SignExtend(c.operator));
    Then(m, s1, m1, s2, m2);
    Then(m, s1 + s2, m2, OptScalar(3, SignExtend(c.operator)), CriterionMsg(c));
  }

  lemma DecodesNothing(m: Message)
    ensures Decodes(m, [], m)
  {
  }

  lemma {:induction false} CriteriaDecode(o: CriterionOperation, cs: seq<Criterion>)
    requires |EncCriteria(cs)| < TWO63
    ensures Decodes(OperationMsg(o), EncCriteria(cs), OperationMsg(o.(criterion := o.criterion + cs)))
    decreases cs
  {
    hide Decodes, BytesField, EncCriterion;
    if cs == [] {
      DecodesNothing(OperationMsg(o));
      assert o.criterion + cs == o.criterion;
    } else {
      var o1 := o.(criterion := o.criterion + [cs[0]]);
      BytesFieldLength(1, EncCriterion(cs[0]));
      CriterionRoundTrip(cs[0]);
      EmbeddedDecodes(OperationMsg(o), 1, CriterionMsg(cs[0]));
      CriteriaDecode(o1, cs[1..]);
      assert o1.criterion + cs[1..] == o.criterion + cs;
      Then(OperationMsg(o), BytesField(1, EncCriterion(cs[0])), OperationMsg(o1), EncCriteria(cs[1..]),
           OperationMsg(o.(criterion := o.criterion + cs)));
    }
  }

  /** The recursive tree. */
  lemma {:induction false} OperationRoundTrip(o: CriterionOperation)
    requires |EncOperation(o)| < TWO63
    ensures Decodes(OperationMsg(EMPTY_OPERATION), EncOperation(o), OperationMsg(o))
    decreases o
  {
    hide Parse, Decodes, OptScalar, SignExtend, ToInt32, EncCriteria, EncOperations;
    var m := OperationMsg(EMPTY_OPERATION);
    var o1 := CriterionOperation(o.criterion, 0, []);
    var o2 := o1.(logicalOperator := o.logicalOperator);
    var s2 := OptScalar(2, SignExtend(o.logicalOperator));
    CriteriaDecode(EMPTY_OPERATION, o.criterion);
    assert [] + o.criterion == o.criterion;
    Int32Zero();
    Int32RoundTrip(o.logicalOperator);
    OptScalarDecodes(OperationMsg(o1), 2, SignExtend(o.logicalOperator));
    SubOperationsDecode(o2, o.subOperations);
    assert [] + o.subOperations == o.subOperations;
    Then(m, EncCriteria(o.criterion), OperationMsg(o1), s2, OperationMsg(o2));
    Then(m, EncCriteria(o.criterion) + s2, OperationMsg(o2), EncOperations(o.subOperations), OperationMsg(o));
  }

  lemma {:induction false} SubOperationsDecode(o: CriterionOperation, os: seq<CriterionOperation>)
    requires |EncOperations(os)| < TWO63
    ensures Decodes(OperationMsg(o), EncOperations(os), OperationMsg(o.(subOperations := o.subOperations + os)))
    decreases os
  {
    hide Parse, Decodes, BytesField, EncOperation;
    if os == [] {
      DecodesNothing(OperationMsg(o));
      assert o.subOperations + os == o.subOperations;
    } else {
      var o1 := o.(subOperations := o.subOperations + [os[0]]);
      BytesFieldLength(3, EncOperation(os[0]));
      OperationRoundTrip(os[0]);
      EmbeddedDecodes(OperationMsg(o), 3, OperationMsg(os[0]));
      SubOperationsDecode(o1, os[1..]);
      assert o1.subOperations + os[1..] == o.subOperations + os;
      Then(OperationMsg(o), BytesField(3, EncOperation(os[0])), OperationMsg(o1), EncOperations(os[1..]),
           OperationMsg(o.(subOperations := o.subOperations + os)));
    }
  }

  lemma {:induction false} OrderBysDecode(l: ListOptionsExt, os: seq<OrderBy>)
    requires |EncOrderBys(os)| < TWO63
    ensures Decodes(ListOptionsMsg(l), EncOrderBys(os), ListOptionsMsg(l.(orderBy := l.orderBy + os)))
    decreases os
  {
    hide Parse, Decodes, BytesField, EncOrderBy;
    if os == [] {
      DecodesNothing(ListOptionsMsg(l));
      assert l.orderBy + os == l.orderBy;
    } else {
      var l1 := l.(orderBy := l.orderBy + [os[0]]);
      BytesFieldLength(1, EncOrderBy(os[0]));
      OrderByRoundTrip(os[0]);
      EmbeddedDecodes(ListOptionsMsg(l), 1, OrderByMsg(os[0]));
      OrderBysDecode(l1, os[1..]);
      assert l1.orderBy + os[1..] == l.orderBy + os;
      Then(ListOptionsMsg(l), BytesField(1, EncOrderBy(os[0])), ListOptionsMsg(l1), EncOrderBys(os[1..]),
           ListOptionsMsg(l.(orderBy := l.orderBy + os)));
    }
  }

  /** Lists of strings: empty strings in the list are kept. */
  lemma {:induction false} SkipListDecodes(l: ListOptionsExt, ss: seq<bytes>)
    requires |EncStrings(4, ss)| < TWO63
    ensures Decodes(ListOptionsMsg(l), EncStrings(4, ss),
                    ListOptionsMsg(l.(returnedFieldSkipList := l.returnedFieldSkipList + ss)))
    decreases ss
  {
    hide Parse, Decodes, BytesField;
    if ss == [] {
      DecodesNothing(ListOptionsMsg(l));
      assert l.returnedFieldSkipList + ss == l.returnedFieldSkipList;
    } else {
      var l1 := l.(returnedFieldSkipList := l.returnedFieldSkipList + [ss[0]]);
      StringDecodes(ListOptionsMsg(l), 4, ss[0]);
      SkipListDecodes(l1, ss[1..]);
      assert l1.returnedFieldSkipList + ss[1..] == l.returnedFieldSkipList + ss;
      Then(ListOptionsMsg(l), BytesField(4, ss[0]), ListOptionsMsg(l1), EncStrings(4, ss[1..]),
           ListOptionsMsg(l.(returnedFieldSkipList := l.returnedFieldSkipList + ss)));
    }
  }

  lemma StringDecodes(m: Message, num: int, p: bytes)
    requires 0 < num < 0x2000_0000 && num in SchemaOf(m) && SchemaOf(m)[num].BytesKind?
    requires Child(m, num).None? && |BytesField(num, p)| < TWO63
    ensures Decodes(m, BytesField(num, p), ApplyBytes(m, num, p))
  {
    hide SchemaOf, ApplyBytes, BytesField, Child;
    ParseBytesField(m, num, p);
  }

  lemma {:induction false} ListOptionsRoundTrip(l: ListOptionsExt)
    requires |EncListOptions(l)| < TWO63
    ensures Decodes(ListOptionsMsg(EMPTY_LIST_OPTIONS), EncListOptions(l), ListOptionsMsg(l))
  {
    hide Parse, Decodes, BytesField, EncOrderBys, EncOperation, EncPagination, EncStrings;
    var m := ListOptionsMsg(EMPTY_LIST_OPTIONS);
    var m1 := ListOptionsMsg(ListOptionsExt(l.orderBy, None, None, []));
    var m2 := ListOptionsMsg(ListOptionsExt(l.orderBy, l.operation, None, []));
    var m3 := ListOptionsMsg(ListOptionsExt(l.orderBy, l.operation, l.pagination, []));
    var s1 := EncOrderBys(l.orderBy);
    var s2 := if l.operation.Some? then BytesField(2, EncOperation(l.operation.value)) else [];
    var s3 := if l.pagination.Some? then BytesField(3, EncPagination(l.pagination.value)) else [];
    OrderBysDecode(EMPTY_LIST_OPTIONS, l.orderBy);
    assert [] + l.orderBy == l.orderBy;
    if l.operation.Some? {
      BytesFieldLength(2, EncOperation(l.operation.value));
      OperationRoundTrip(l.operation.value);
      EmbeddedDecodes(m1, 2, OperationMsg(l.operation.value));
    } else {
      DecodesNothing(m1);
    }
    if l.pagination.Some? {
      BytesFieldLength(3, EncPagination(l.pagination.value));
      PaginationRoundTrip(l.pagination.value);
      EmbeddedDecodes(m2, 3, PaginationMsg(l.pagination.value));
    } else {
      DecodesNothing(m2);
    }
    SkipListDecodes(m3.listOptions, l.returnedFieldSkipList);
    assert [] + l.returnedFieldSkipList == l.returnedFieldSkipList;
    Then(m, s1, m1, s2, m2);
    Then(m, s1 + s2, m2, s3, m3);
    Then(m, s1 + s2 + s3, m3, EncStrings(4, l.returnedFieldSkipList), ListOptionsMsg(l));
  }
}
