/** The encoding of every message against the proto files: which number each field has, which wire type, and
    what its bytes mean. Nothing here refers to how the encoder computes them. */
module WireForm {
  import opened Wrappers
  import opened Varint
  import opened Fields
  import opened Messages
  import opened MessageLaws

  // ---- Fields on the wire ----

  /** A complete varint whose value is w. */
  predicate IsVarintOf(s: bytes, w: nat) {
    IsVarint(s) && VarVal(s) == w < 0x1_0000_0000_0000_0000
  }

  /** Tag and varint; the value is f as a 64-bit two's complement. */
  predicate IsNumber(tag: bytes, v: bytes, num: nat, f: int) {
    && IsVarintOf(tag, 8 * num)
    && IsVarint(v) && VarVal(v) < 0x1_0000_0000_0000_0000 && (VarVal(v) - f) % 0x1_0000_0000_0000_0000 == 0
  }

  /** Tag, length and payload. */
  predicate IsRecord(tag: bytes, len: bytes, num: nat, payload: bytes) {
    IsVarintOf(tag, 8 * num + 2) && IsVarintOf(len, |payload|)
  }

  /** A field of type int32 or of an enum type, left out when zero. */
  ghost predicate IsInt(s: bytes, num: nat, f: int32) {
    if f == 0 then s == [] else exists tag, v :: s == tag + v && IsNumber(tag, v, num, f)
  }

  /** A bool that is there, true or false. */
  ghost predicate IsBool(s: bytes, num: nat, b: bool) {
    exists tag :: s == tag + [if b then 1 else 0] && IsVarintOf(tag, 8 * num)
  }

  /** A bool field, left out when false. */
  ghost predicate IsFlag(s: bytes, num: nat, b: bool) {
    if b then IsBool(s, num, true) else s == []
  }

  ghost predicate IsBytes(s: bytes, num: nat, payload: bytes) {
    exists tag, len :: s == tag + len + payload && IsRecord(tag, len, num, payload)
  }

  /** A string field, left out when empty. */
  ghost predicate IsText(s: bytes, num: nat, p: bytes) {
    if p == [] then s == [] else IsBytes(s, num, p)
  }

  /** A repeated field of strings or messages: every element, also an empty one, in order. */
  ghost predicate IsList(s: bytes, num: nat, ps: seq<bytes>)
    decreases |ps|
  {
    if ps == [] then s == []
    else exists a, rest :: s == a + rest && IsBytes(a, num, ps[0]) && IsList(rest, num, ps[1..])
  }

  /** A submessage, left out when nil and there when empty. */
  ghost predicate IsChild(s: bytes, num: nat, child: Option<bytes>) {
    if child.None? then s == [] else IsBytes(s, num, child.value)
  }

  // ---- Integers ----

  /** int32(u) keeps the lower half. */
  lemma TruncationLaw(u: nat)
    ensures (ToInt32(u) - u) % 0x1_0000_0000 == 0
  {
    var q := u / TWO32;
    assert u == q * TWO32 + u % TWO32;
    assert ToInt32(u) - u == (if u % TWO32 < TWO31 then -q else -q - 1) * TWO32;
  }

  /** A sum of ints is an int64 that equals it modulo 2^64. */
  lemma WrapLaw(sum: nat)
    requires sum < 0x1_0000_0000_0000_0000
    ensures -0x8000_0000_0000_0000 <= WrapInt64(sum) < 0x8000_0000_0000_0000
    ensures (WrapInt64(sum) - sum) % 0x1_0000_0000_0000_0000 == 0
  {
    var k := if sum < TWO63 then 0 else -1;
    assert WrapInt64(sum) - sum == k * TWO64;
  }

  lemma IntOnWire(num: nat, f: int32)
    requires 0 < num < 0x2000_0000
    ensures IsInt(OptScalar(num, SignExtend(f)), num, f)
  {
    if f != 0 {
      var w := SignExtend(f);
      TagOnWire(num, 0);
      VarintOnWire(w);
      assert (w - f) % TWO64 == 0;
      assert IsNumber(TagBytes(num, 0), EncVarint(w), num, f);
    }
  }

  lemma VarintOnWire(w: uint64)
    ensures IsVarintOf(EncVarint(w), w)
  {
    Pow2Values();
    EncVarintShape(w, 10);
  }

  lemma TagOnWire(num: nat, wireType: nat)
    requires num < 0x2000_0000 && wireType < 8
    ensures IsVarintOf(TagBytes(num, wireType), 8 * num + wireType)
  {
    VarintOnWire(8 * num + wireType);
  }

  lemma BytesOnWire(num: nat, p: bytes)
    requires num < 0x2000_0000 && |p| < TWO63
    ensures IsBytes(BytesField(num, p), num, p)
  {
    hide IsVarintOf, EncVarint;
    TagOnWire(num, 2);
    VarintOnWire(|p|);
    assert IsRecord(TagBytes(num, 2), EncVarint(|p|), num, p);
  }

  lemma TextOnWire(num: nat, p: bytes)
    requires num < 0x2000_0000 && |p| < TWO63
    ensures IsText(OptBytes(num, p), num, p)
  {
    hide IsBytes, BytesField;
    if p != [] { BytesOnWire(num, p); }
  }

  lemma BoolOnWire(num: nat, b: bool)
    requires num < 0x2000_0000
    ensures IsBool(ScalarField(num, if b then 1 else 0), num, b)
  {
    TagOnWire(num, 0);
    hide IsVarintOf;
    assert ScalarField(num, if b then 1 else 0) == TagBytes(num, 0) + [if b then 1 else 0];
  }

  lemma FlagOnWire(num: nat, b: bool)
    requires num < 0x2000_0000
    ensures IsFlag(OptFlag(num, b), num, b)
  {
    hide IsBool, ScalarField;
    if b { BoolOnWire(num, true); }
  }

  lemma {:induction false} StringsOnWire(num: nat, ss: seq<bytes>)
    requires num < 0x2000_0000 && |EncStrings(num, ss)| < TWO63
    ensures IsList(EncStrings(num, ss), num, ss)
    decreases |ss|
  {
    hide IsBytes, BytesField;
    if ss != [] {
      BytesFieldLength(num, ss[0]);
      BytesOnWire(num, ss[0]);
      StringsOnWire(num, ss[1..]);
      assert IsBytes(BytesField(num, ss[0]), num, ss[0]) && IsList(EncStrings(num, ss[1..]), num, ss[1..]);
    }
  }

  // ---- The messages of list.proto ----

  lemma AnyOnWire(a: Any) returns (typeUrl: bytes, value: bytes)
    requires |EncAny(a)| < TWO63
    ensures EncAny(a) == typeUrl + value
    ensures IsText(typeUrl, 1, a.typeUrl) && IsText(value, 2, a.value)
  {
    hide IsText, BytesField;
    typeUrl, value := OptBytes(1, a.typeUrl), OptBytes(2, a.value);
    BytesFieldLength(1, a.typeUrl);
    BytesFieldLength(2, a.value);
    TextOnWire(1, a.typeUrl);
    TextOnWire(2, a.value);
  }

  /** `dir` is an enum, read and written as an int32. */
  lemma OrderByOnWire(o: OrderBy) returns (field: bytes, dir: bytes)
    requires |EncOrderBy(o)| < TWO63
    ensures EncOrderBy(o) == field + dir
    ensures IsText(field, 1, o.field) && IsInt(dir, 2, o.dir)
  {
    hide IsText, IsInt, BytesField, ScalarField, SignExtend;
    field, dir := OptBytes(1, o.field), OptScalar(2, SignExtend(o.dir));
    BytesFieldLength(1, o.field);
    TextOnWire(1, o.field);
    IntOnWire(2, o.dir);
  }

  lemma PaginationOnWire(p: PaginationSpec) returns (offset: bytes, limit: bytes)
    ensures EncPagination(p) == offset + limit
    ensures IsInt(offset, 1, p.offset) && IsInt(limit, 2, p.limit)
  {
    hide IsInt, OptScalar, SignExtend;
    offset, limit := OptScalar(1, SignExtend(p.offset)), OptScalar(2, SignExtend(p.limit));
    IntOnWire(1, p.offset);
    IntOnWire(2, p.limit);
  }

  lemma CriterionOnWire(c: Criterion) returns (name: bytes, match_: bytes, operator: bytes)
    requires |EncCriterion(c)| < TWO63
    ensures EncCriterion(c) == name + match_ + operator
    ensures IsText(name, 1, c.fieldName) && IsInt(operator, 3, c.operator)
    ensures IsChild(match_, 2, if c.matchValue.None? then None else Some(EncAny(c.matchValue.value)))
  {
    hide IsText, IsInt, IsBytes, BytesField, ScalarField, SignExtend, EncAny;
    name := OptBytes(1, c.fieldName);
    match_ := if c.matchValue.Some? then BytesField(2, EncAny(c.matchValue.value)) else [];
    operator := OptScalar(3, SignExtend(c.operator));
    BytesFieldLength(1, c.fieldName);
    TextOnWire(1, c.fieldName);
    IntOnWire(3, c.operator);
    if c.matchValue.Some? {
      BytesFieldLength(2, EncAny(c.matchValue.value));
      BytesOnWire(2, EncAny(c.matchValue.value));
    }
  }

  function CriterionPayloads(cs: seq<Criterion>): (ps: seq<bytes>)
    ensures |ps| == |cs| && forall k :: 0 <= k < |cs| ==> ps[k] == EncCriterion(cs[k])
  {
    seq(|cs|, k requires 0 <= k < |cs| => EncCriterion(cs[k]))
  }

  function OperationPayloads(os: seq<CriterionOperation>): (ps: seq<bytes>)
    ensures |ps| == |os| && forall k :: 0 <= k < |os| ==> ps[k] == EncOperation(os[k])
  {
    seq(|os|, k requires 0 <= k < |os| => EncOperation(os[k]))
  }

  function OrderByPayloads(os: seq<OrderBy>): (ps: seq<bytes>)
    ensures |ps| == |os| && forall k :: 0 <= k < |os| ==> ps[k] == EncOrderBy(os[k])
  {
    seq(|os|, k requires 0 <= k < |os| => EncOrderBy(os[k]))
  }

  /** The three repeated message fields are written as their payloads would be as strings. */
  lemma {:induction false} CriteriaAreStrings(cs: seq<Criterion>)
    ensures EncCriteria(cs) == EncStrings(1, CriterionPayloads(cs))
    decreases |cs|
  {
    hide EncCriterion, BytesField;
    if cs != [] {
      assert CriterionPayloads(cs)[1..] == CriterionPayloads(cs[1..]);
      CriteriaAreStrings(cs[1..]);
    }
  }

  lemma {:induction false} OperationsAreStrings(os: seq<CriterionOperation>)
    ensures EncOperations(os) == EncStrings(3, OperationPayloads(os))
    decreases |os|
  {
    hide EncOperation, BytesField;
    if os != [] {
      assert OperationPayloads(os)[1..] == OperationPayloads(os[1..]);
      OperationsAreStrings(os[1..]);
    }
  }

  lemma {:induction false} OrderBysAreStrings(os: seq<OrderBy>)
    ensures EncOrderBys(os) == EncStrings(1, OrderByPayloads(os))
    decreases |os|
  {
    hide EncOrderBy, BytesField;
    if os != [] {
      assert OrderByPayloads(os)[1..] == OrderByPayloads(os[1..]);
      OrderBysAreStrings(os[1..]);
    }
  }

  lemma OperationOnWire(o: CriterionOperation) returns (criterion: bytes, operator: bytes, sub: bytes)
    requires |EncOperation(o)| < TWO63
    ensures EncOperation(o) == criterion + operator + sub
    ensures IsList(criterion, 1, CriterionPayloads(o.criterion)) && IsInt(operator, 2, o.logicalOperator)
    ensures IsList(sub, 3, OperationPayloads(o.subOperations))
  {
    hide IsList, IsInt, EncCriteria, EncOperations, EncStrings, OptScalar, SignExtend;
    criterion, sub := EncCriteria(o.criterion), EncOperations(o.subOperations);
    operator := OptScalar(2, SignExtend(o.logicalOperator));
    CriteriaAreStrings(o.criterion);
    StringsOnWire(1, CriterionPayloads(o.criterion));
    IntOnWire(2, o.logicalOperator);
    OperationsAreStrings(o.subOperations);
    StringsOnWire(3, OperationPayloads(o.subOperations));
  }

  lemma ListOptionsOnWire(l: ListOptionsExt) returns (orderBy: bytes, operation: bytes, pagination: bytes, skip: bytes)
    requires |EncListOptions(l)| < TWO63
    ensures EncListOptions(l) == orderBy + operation + pagination + skip
    ensures IsList(orderBy, 1, OrderByPayloads(l.orderBy)) && IsList(skip, 4, l.returnedFieldSkipList)
    ensures IsChild(operation, 2, if l.operation.None? then None else Some(EncOperation(l.operation.value)))
    ensures IsChild(pagination, 3, if l.pagination.None? then None else Some(EncPagination(l.pagination.value)))
  {
    hide IsList, IsBytes, EncOrderBys, EncOperation, EncPagination, EncStrings, BytesField;
    orderBy, skip := EncOrderBys(l.orderBy), EncStrings(4, l.returnedFieldSkipList);
    operation := if l.operation.Some? then BytesField(2, EncOperation(l.operation.value)) else [];
    pagination := if l.pagination.Some? then BytesField(3, EncPagination(l.pagination.value)) else [];
    OrderBysAreStrings(l.orderBy);
    StringsOnWire(1, OrderByPayloads(l.orderBy));
    StringsOnWire(4, l.returnedFieldSkipList);
    if l.operation.Some? {
      BytesFieldLength(2, EncOperation(l.operation.value));
      BytesOnWire(2, EncOperation(l.operation.value));
    }
    if l.pagination.Some? {
      BytesFieldLength(3, EncPagination(l.pagination.value));
      BytesOnWire(3, EncPagination(l.pagination.value));
    }
  }

  lemma AllOnes(q: nat)
    requires q > 0
    ensures EncVarint(128 * q + 127) == [0xff] + EncVarint(q)
  {
    assert (128 * q + 127) % 128 == 127 && (128 * q + 127) / 128 == q;
  }

  /** A limit of -1 as it stands in the buffer. */
  lemma MinusOneOnWire()
    ensures EncPagination(PaginationSpec(0, -1))
         == [0x10, 0xff, 0xff, 0xff, 0xff, 0xff, 0xff, 0xff, 0xff, 0xff, 0x01]
  {
    assert SignExtend(-1) == 0xffff_ffff_ffff_ffff && EncVarint(1) == [1] && TagBytes(2, 0) == [0x10];
    hide EncVarint, TagBytes;
    AllOnes(0x1ff_ffff_ffff_ffff);
    AllOnes(0x3_ffff_ffff_ffff);
    AllOnes(0x7ff_ffff_ffff);
    AllOnes(0xf_ffff_ffff);
    AllOnes(0x1fff_ffff);
    AllOnes(0x3f_ffff);
    AllOnes(0x7fff);
    AllOnes(0xff);
    AllOnes(1);
  }

  // ---- The message Validation of options.proto ----

  /** Fields 1 to 11. */
  lemma ValidationTextsOnWire(w: Validation)
    returns (min: bytes, max: bytes, maxItems: bytes, minItems: bytes, unique: bytes, maxLength: bytes,
             minLength: bytes, pattern: bytes, notPattern: bytes, within: bytes, notWithin: bytes)
    requires |EncValidationTexts(w)| < TWO63
    ensures EncValidationTexts(w) == min + max + maxItems + minItems + unique + maxLength + minLength + pattern
              + notPattern + within + notWithin
    ensures IsText(min, 1, w.texts.min) && IsText(max, 2, w.texts.max) && IsText(maxItems, 3, w.texts.maxItems)
    ensures IsText(minItems, 4, w.texts.minItems) && IsFlag(unique, 5, 5 in w.flags)
    ensures IsText(maxLength, 6, w.texts.maxLength) && IsText(minLength, 7, w.texts.minLength)
    ensures IsText(pattern, 8, w.texts.pattern) && IsText(notPattern, 9, w.texts.notPattern)
    ensures IsList(within, 10, w.within) && IsList(notWithin, 11, w.notWithin)
  {
    var t := w.texts;
    hide IsText, IsFlag, IsList, OptBytes, OptFlag, EncStrings;
    min, max := OptBytes(1, t.min), OptBytes(2, t.max);
    maxItems, minItems := OptBytes(3, t.maxItems), OptBytes(4, t.minItems);
    unique, maxLength, minLength := OptFlag(5, 5 in w.flags), OptBytes(6, t.maxLength), OptBytes(7, t.minLength);
    pattern, notPattern := OptBytes(8, t.pattern), OptBytes(9, t.notPattern);
    within, notWithin := EncStrings(10, w.within), EncStrings(11, w.notWithin);
    ShortText(1, t.min); ShortText(2, t.max); ShortText(3, t.maxItems); ShortText(4, t.minItems);
    FlagOnWire(5, 5 in w.flags);
    ShortText(6, t.maxLength); ShortText(7, t.minLength); ShortText(8, t.pattern); ShortText(9, t.notPattern);
    StringsOnWire(10, w.within);
    StringsOnWire(11, w.notWithin);
  }

  lemma ShortText(num: nat, p: bytes)
    requires num < 0x2000_0000 && |OptBytes(num, p)| < TWO63
    ensures IsText(OptBytes(num, p), num, p)
  {
    hide IsText, BytesField;
    if p != [] { BytesFieldLength(num, p); }
    TextOnWire(num, p);
  }

  /** The oneof is there, with its bool, whenever a case is set. */
  ghost predicate IsPresence(s: bytes, p: Presence) {
    match p
    case Unset => s == []
    case Optional(b) => IsBool(s, 101, b)
    case Required(b) => IsBool(s, 102, b)
  }

  lemma PresenceOnWire(p: Presence)
    ensures IsPresence(EncPresence(p), p)
  {
    hide IsBool, ScalarField;
    match p
    case Unset =>
    case Optional(b) => BoolOnWire(101, b);
    case Required(b) => BoolOnWire(102, b);
  }

  /** Fields 101 to 308. */
  lemma ValidationFlagsOnWire(w: Validation)
    returns (presence: bytes, exclMax: bytes, exclMin: bytes, msg: bytes, uuid: bytes, email: bytes, uri: bytes,
             ipv4: bytes, ipv6: bytes, ip: bytes, hostname: bytes, hostAddress: bytes)
    requires |EncValidationFlags(w)| < TWO63
    ensures EncValidationFlags(w) == presence + exclMax + exclMin + msg + uuid + email + uri + ipv4 + ipv6 + ip
              + hostname + hostAddress
    ensures IsPresence(presence, w.presence) && IsFlag(exclMax, 103, 103 in w.flags)
    ensures IsFlag(exclMin, 104, 104 in w.flags) && IsText(msg, 201, w.texts.msg)
    ensures IsFlag(uuid, 301, 301 in w.flags) && IsFlag(email, 302, 302 in w.flags)
    ensures IsFlag(uri, 303, 303 in w.flags) && IsFlag(ipv4, 304, 304 in w.flags)
    ensures IsFlag(ipv6, 305, 305 in w.flags) && IsFlag(ip, 306, 306 in w.flags)
    ensures IsFlag(hostname, 307, 307 in w.flags) && IsFlag(hostAddress, 308, 308 in w.flags)
  {
    var f := w.flags;
    hide IsText, IsFlag, IsPresence, OptBytes, OptFlag, EncPresence;
    presence, exclMax, exclMin := EncPresence(w.presence), OptFlag(103, 103 in f), OptFlag(104, 104 in f);
    msg, uuid := OptBytes(201, w.texts.msg), OptFlag(301, 301 in f);
    email, uri := OptFlag(302, 302 in f), OptFlag(303, 303 in f);
    ipv4, ipv6, ip := OptFlag(304, 304 in f), OptFlag(305, 305 in f), OptFlag(306, 306 in f);
    hostname, hostAddress := OptFlag(307, 307 in f), OptFlag(308, 308 in f);
    PresenceOnWire(w.presence);
    ShortText(201, w.texts.msg);
    FlagOnWire(103, 103 in f); FlagOnWire(104, 104 in f); FlagOnWire(301, 301 in f); FlagOnWire(302, 302 in f);
    FlagOnWire(303, 303 in f); FlagOnWire(304, 304 in f); FlagOnWire(305, 305 in f); FlagOnWire(306, 306 in f);
    FlagOnWire(307, 307 in f); FlagOnWire(308, 308 in f);
  }

  /** The whole message: texts, flags, and the three children as fields 401 to 403. */
  lemma ValidationOnWire(w: Validation) returns (items: bytes, keys: bytes, values: bytes)
    requires |EncValidation(w)| < TWO63
    ensures EncValidation(w) == EncValidationTexts(w) + EncValidationFlags(w) + items + keys + values
    ensures IsChild(items, 401, if w.items.None? then None else Some(EncValidation(w.items.value)))
    ensures IsChild(keys, 402, if w.keys.None? then None else Some(EncValidation(w.keys.value)))
    ensures IsChild(values, 403, if w.values.None? then None else Some(EncValidation(w.values.value)))
  {
    hide IsBytes, BytesField, EncValidationTexts, EncValidationFlags;
    items := if w.items.Some? then BytesField(401, EncValidation(w.items.value)) else [];
    keys := if w.keys.Some? then BytesField(402, EncValidation(w.keys.value)) else [];
    values := if w.values.Some? then BytesField(403, EncValidation(w.values.value)) else [];
    if w.items.Some? { ChildOnWire(401, EncValidation(w.items.value)); }
    if w.keys.Some? { ChildOnWire(402, EncValidation(w.keys.value)); }
    if w.values.Some? { ChildOnWire(403, EncValidation(w.values.value)); }
  }

  lemma ChildOnWire(num: nat, p: bytes)
    requires num < 0x2000_0000 && |BytesField(num, p)| < TWO63
    ensures IsBytes(BytesField(num, p), num, p)
  {
    hide IsBytes, BytesField;
    BytesFieldLength(num, p);
    BytesOnWire(num, p);
  }

  // ---- Fields of another wire type ----

  /** The wire type that the proto file gives a field number: 0 for numbers, enums and bools, 2 for strings,
      bytes and messages. */
  function Declared(m: Message, num: int): Option<nat> {
    match m
    case AnyMsg(_) => if num in {1, 2} then Some(2) else None
    case OrderByMsg(_) => if num == 1 then Some(2) else if num == 2 then Some(0) else None
    case PaginationMsg(_) => if num in {1, 2} then Some(0) else None
    case CriterionMsg(_) => if num in {1, 2} then Some(2) else if num == 3 then Some(0) else None
    case OperationMsg(_) => if num in {1, 3} then Some(2) else if num == 2 then Some(0) else None
    case ListOptionsMsg(_) => if num in {1, 2, 3, 4} then Some(2) else None
    case ValidationMsg(_) =>
      if num in {1, 2, 3, 4, 6, 7, 8, 9, 10, 11, 201, 401, 402, 403} then Some(2)
      else if num in {5, 101, 102, 103, 104, 301, 302, 303, 304, 305, 306, 307, 308} then Some(0)
      else None
  }

  lemma ValidationIsDeclared(w: Validation, num: int)
    ensures var s := SchemaOf(ValidationMsg(w));
      && (num in s <==> Declared(ValidationMsg(w), num).Some?)
      && (num in s ==> Declared(ValidationMsg(w), num).value == if s[num].ScalarKind? then 0 else 2)
  {
    DeclaredSets(num);
    var s := SchemaOf(ValidationMsg(w));
    assert num in s <==> num in VALIDATION_SCALARS || num in VALIDATION_BYTES;
    assert num in s ==> (s[num].ScalarKind? <==> num in VALIDATION_SCALARS);
    hide SchemaOf;
  }

  lemma DeclaredSets(num: int)
    ensures num in VALIDATION_BYTES <==> num in {1, 2, 3, 4, 6, 7, 8, 9, 10, 11, 201, 401, 402, 403}
    ensures num in VALIDATION_SCALARS <==> num in {5, 101, 102, 103, 104, 301, 302, 303, 304, 305, 306, 307, 308}
    ensures num in VALIDATION_BYTES ==> num !in VALIDATION_SCALARS
  {
  }

  lemma SchemaIsDeclared(m: Message, num: int)
    ensures num in SchemaOf(m) <==> Declared(m, num).Some?
    ensures num in SchemaOf(m) ==> Declared(m, num).value == if SchemaOf(m)[num].ScalarKind? then 0 else 2
  {
    if m.ValidationMsg? {
      hide SchemaOf, Declared;
      ValidationIsDeclared(m.validation, num);
    }
  }

  /** A declared field that comes with another wire type is refused, wherever it comes and whatever follows. */
  lemma OtherWireTypeRefused(m: Message, b: bytes, base: nat)
    requires ReadVarint(b).Ok? && 0 < ReadVarint(b).value.value / 8 < 0x2000_0000
    requires var w := ReadVarint(b).value.value;
      Declared(m, w / 8).Some? && Declared(m, w / 8).value != w % 8
    ensures var w := ReadVarint(b).value.value;
      Parse(m, b, base) == Err(if w % 8 == 4 then EndGroupForNonGroup else WrongWireType(w % 8, w / 8))
  {
    hide SchemaOf, Declared, ReadVarint, NextField;
    SchemaIsDeclared(m, ReadVarint(b).value.value / 8);
    RefusedAtOnce(SchemaOf(m), b, base);
    if b == [] { EmptyHasNoTag(); }
  }

  lemma RefusedAtOnce(schema: Schema, b: bytes, base: nat)
    requires ReadVarint(b).Ok? && 0 < ReadVarint(b).value.value / 8 < 0x2000_0000
    requires var w := ReadVarint(b).value.value;
      w / 8 in schema && (if schema[w / 8].ScalarKind? then 0 else 2) != w % 8
    ensures var w := ReadVarint(b).value.value;
      NextField(schema, b, base) == Err(if w % 8 == 4 then EndGroupForNonGroup else WrongWireType(w % 8, w / 8))
  {
    hide ReadVarint, ReadLength;
    assert ToInt32(ReadVarint(b).value.value / 8) == ReadVarint(b).value.value / 8;
  }

  lemma EmptyHasNoTag()
    ensures ReadVarint([]).Err?
  {
  }

  // ---- Other input that is refused ----

  /** A tag with field number zero, or one that is negative as an int32, and an end of group outside a group. */
  lemma IllegalTagRefused(m: Message, b: bytes, base: nat)
    requires ReadVarint(b).Ok?
    requires var w := ReadVarint(b).value.value;
      w % 8 == 4 || (w / 8) % 0x1_0000_0000 == 0 || (w / 8) % 0x1_0000_0000 >= 0x8000_0000
    ensures var w := ReadVarint(b).value.value;
      var r := Parse(m, b, base);
      r.Err? && (w % 8 == 4 ==> r.error == EndGroupForNonGroup) && (w % 8 != 4 ==> r.error.IllegalTag?)
  {
    hide SchemaOf, ReadVarint, NextField;
    TagRefused(SchemaOf(m), b, base);
    if b == [] { EmptyHasNoTag(); }
  }

  lemma TagRefused(schema: Schema, b: bytes, base: nat)
    requires ReadVarint(b).Ok?
    requires var w := ReadVarint(b).value.value;
      w % 8 == 4 || (w / 8) % 0x1_0000_0000 == 0 || (w / 8) % 0x1_0000_0000 >= 0x8000_0000
    ensures var w := ReadVarint(b).value.value;
      var r := NextField(schema, b, base);
      r.Err? && (w % 8 == 4 ==> r.error == EndGroupForNonGroup) && (w % 8 != 4 ==> r.error.IllegalTag?)
  {
    hide ReadVarint, ReadLength;
  }

  /** Bytes that are no complete varint: an eleventh continuation byte, or the end of input. */
  lemma BrokenVarintRefused(m: Message, b: bytes, base: nat)
    requires b != [] && ReadVarint(b).Err?
    ensures Parse(m, b, base) == Err(ReadVarint(b).error)
    ensures ReadVarint(b).error
      == if |b| >= 10 && forall i :: 0 <= i < 10 ==> b[i] >= 128 then IntOverflow else UnexpectedEOF
  {
    ScanFails(b, 0);
    hide SchemaOf, ReadVarint;
  }

  lemma {:induction false} ScanFails(b: bytes, k: nat)
    requires k <= |b| && k <= 10 && ScanVarint(b, k).Err?
    ensures ScanVarint(b, k).error
      == if |b| >= 10 && forall i :: k <= i < 10 ==> b[i] >= 128 then IntOverflow else UnexpectedEOF
    decreases 10 - k
  {
    if k < 10 && k < |b| && b[k] >= 128 { ScanFails(b, k + 1); }
  }

  /** A length-delimited field that goes beyond the input; whether its end still fits an int64 decides the error. */
  lemma BadLengthRefused(m: Message, num: int, len: nat, rest: bytes)
    requires 0 < num < 0x2000_0000 && Declared(m, num) == Some(2)
    requires |rest| < len < 0x1_0000_0000_0000_0000
    ensures var end := |TagBytes(num, 2)| + |EncVarint(len)| + len;
      Parse(m, TagBytes(num, 2) + EncVarint(len) + rest, 0)
      == Err(if end >= 0x8000_0000_0000_0000 then InvalidLength else UnexpectedEOF)
  {
    hide SchemaOf, Declared, EncVarint, NextField, TagBytes;
    SchemaIsDeclared(m, num);
    BadLengthField(SchemaOf(m), num, len, rest);
    NotEmpty(num, len, rest);
  }

  lemma NotEmpty(num: nat, len: nat, rest: bytes)
    requires 0 < num < 0x2000_0000 && len < 0x1_0000_0000_0000_0000
    ensures TagBytes(num, 2) + EncVarint(len) + rest != []
  {
    hide EncVarint;
    VarintRoundTrip(len, []);
  }

  lemma BadLengthField(schema: Schema, num: int, len: nat, rest: bytes)
    requires 0 < num < 0x2000_0000 && num in schema && schema[num].BytesKind?
    requires |rest| < len < 0x1_0000_0000_0000_0000
    ensures var end := |TagBytes(num, 2)| + |EncVarint(len)| + len;
      NextField(schema, TagBytes(num, 2) + EncVarint(len) + rest, 0)
      == Err(if end >= 0x8000_0000_0000_0000 then InvalidLength else UnexpectedEOF)
  {
    hide ReadVarint, EncVarint, ReadTag, ReadLength, TagBytes;
    var tag, l := TagBytes(num, 2), EncVarint(len);
    assert tag + l + rest == tag + (l + rest);
    assert (tag + (l + rest))[|tag|..] == l + rest;
    ReadTagOf(num, 2, l + rest);
    LengthRefused(len, rest, |tag|);
  }

  lemma LengthRefused(len: nat, rest: bytes, base: nat)
    requires |rest| < len < 0x1_0000_0000_0000_0000
    ensures ReadLength(EncVarint(len) + rest, base)
         == Err(if base + |EncVarint(len)| + len >= 0x8000_0000_0000_0000 then InvalidLength else UnexpectedEOF)
  {
    hide ReadVarint, EncVarint;
    VarintRoundTrip(len, rest);
  }

  // ---- What the numbers of known fields do ----

  /** An int32 or enum field takes the lower 32 bits of whatever varint comes; any varint but zero makes a bool
      true. */
  lemma PaginationReads(p: PaginationSpec, num: int, v: uint64) returns (x: int32)
    requires num == 1 || num == 2
    ensures (x - v) % 0x1_0000_0000 == 0
    ensures Parse(PaginationMsg(p), ScalarField(num, v), 0)
         == Ok(PaginationMsg(if num == 1 then PaginationSpec(x, p.limit) else PaginationSpec(p.offset, x)))
  {
    hide Parse, ToInt32, ScalarField;
    x := ToInt32(v);
    TruncationLaw(v);
    ParseScalarField(PaginationMsg(p), num, v);
  }

  lemma FlagReads(w: Validation, num: int, v: uint64)
    requires num in {5, 103, 104, 301, 302, 303, 304, 305, 306, 307, 308}
    ensures var r := Parse(ValidationMsg(w), ScalarField(num, v), 0);
      r.Ok? && r.value.ValidationMsg?
      && (num in r.value.validation.flags <==> v != 0)
      && r.value.validation == w.(flags := r.value.validation.flags)
      && r.value.validation.flags - {num} == w.flags - {num}
  {
    hide Parse, SchemaOf;
    DeclaredSets(num);
    ScalarIsKnown(w, num);
    ParseScalarField(ValidationMsg(w), num, v);
  }

  lemma PresenceReads(w: Validation, num: int, v: uint64)
    requires num == 101 || num == 102
    ensures Parse(ValidationMsg(w), ScalarField(num, v), 0)
         == Ok(ValidationMsg(w.(presence := if num == 101 then Optional(v != 0) else Required(v != 0))))
  {
    hide Parse, SchemaOf;
    DeclaredSets(num);
    ScalarIsKnown(w, num);
    ParseScalarField(ValidationMsg(w), num, v);
  }

  lemma ScalarIsKnown(w: Validation, num: int)
    requires num in VALIDATION_SCALARS
    ensures num in SchemaOf(ValidationMsg(w)) && SchemaOf(ValidationMsg(w))[num].ScalarKind?
  {
  }
}
