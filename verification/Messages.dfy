/** The messages of list.proto and the `Validation` option, as values: what each `Unmarshal` does to a
    message, and what each `Marshal` emits. */
module Messages {
  import opened Wrappers
  import opened Varint
  import opened WireSkip
  import opened Fields

  type bytes = seq<byte>

  /** Modelled by its two declared fields. */
  datatype Any = Any(typeUrl: bytes, value: bytes)

  datatype OrderBy = OrderBy(field: bytes, dir: int32)

  datatype PaginationSpec = PaginationSpec(offset: int32, limit: int32)

  datatype Criterion = Criterion(fieldName: bytes, matchValue: Option<Any>, operator: int32)

  datatype CriterionOperation =
    CriterionOperation(criterion: seq<Criterion>, logicalOperator: int32, subOperations: seq<CriterionOperation>)

  datatype ListOptionsExt =
    ListOptionsExt(orderBy: seq<OrderBy>, operation: Option<CriterionOperation>,
                   pagination: Option<PaginationSpec>, returnedFieldSkipList: seq<bytes>)

  /** The oneof `optional_required`: which case is set, and its bool. */
  datatype Presence = Unset | Optional(optional: bool) | Required(required: bool)

  /** The string fields of `Validation`; the Go struct is flat. */
  datatype Texts = Texts(min: bytes, max: bytes, maxItems: bytes, minItems: bytes, maxLength: bytes,
                         minLength: bytes, pattern: bytes, notPattern: bytes, msg: bytes)

  /** Field numbers of the plain bool fields: unique_items, excl_max, excl_min, uuid, email, uri, ipv4,
      ipv6, ip, hostname, host_address. A value holds the set of those that are true. */
  const FLAG_NUMBERS: set<int> := {5, 103, 104, 301, 302, 303, 304, 305, 306, 307, 308}
  type Flags = f: set<int> | f <= FLAG_NUMBERS witness {}

  datatype Validation = Validation(
    texts: Texts, flags: Flags, within: seq<bytes>, notWithin: seq<bytes>, presence: Presence,
    items: Option<Validation>, keys: Option<Validation>, values: Option<Validation>)

  /** Any message of the family. */
  datatype Message =
    | AnyMsg(any: Any)
    | OrderByMsg(orderBy: OrderBy)
    | PaginationMsg(pagination: PaginationSpec)
    | CriterionMsg(criterion: Criterion)
    | OperationMsg(operation: CriterionOperation)
    | ListOptionsMsg(listOptions: ListOptionsExt)
    | ValidationMsg(validation: Validation)

  const EMPTY_ANY := Any([], [])
  const EMPTY_ORDER_BY := OrderBy([], 0)
  const EMPTY_PAGINATION := PaginationSpec(0, 0)
  const EMPTY_CRITERION := Criterion([], None, 0)
  const EMPTY_OPERATION := CriterionOperation([], 0, [])
  const EMPTY_LIST_OPTIONS := ListOptionsExt([], None, None, [])
  const NO_TEXTS := Texts([], [], [], [], [], [], [], [], [])
  const EMPTY_VALIDATION := Validation(NO_TEXTS, {}, [], [], Unset, None, None, None)

  function EmptyOf(m: Message): Message {
    match m
    case AnyMsg(_) => AnyMsg(EMPTY_ANY)
    case OrderByMsg(_) => OrderByMsg(EMPTY_ORDER_BY)
    case PaginationMsg(_) => PaginationMsg(EMPTY_PAGINATION)
    case CriterionMsg(_) => CriterionMsg(EMPTY_CRITERION)
    case OperationMsg(_) => OperationMsg(EMPTY_OPERATION)
    case ListOptionsMsg(_) => ListOptionsMsg(EMPTY_LIST_OPTIONS)
    case ValidationMsg(_) => ValidationMsg(EMPTY_VALIDATION)
  }

  const VALIDATION_SCALARS: set<int> := FLAG_NUMBERS + {101, 102}
  const VALIDATION_BYTES: set<int> := {1, 2, 3, 4, 6, 7, 8, 9, 10, 11, 201, 401, 402, 403}

  function SchemaOf(m: Message): Schema {
    match m
    case AnyMsg(_) => map[1 := BytesKind, 2 := BytesKind]
    case OrderByMsg(_) => map[1 := BytesKind, 2 := ScalarKind]
    case PaginationMsg(_) => map[1 := ScalarKind, 2 := ScalarKind]
    case CriterionMsg(_) => map[1 := BytesKind, 2 := BytesKind, 3 := ScalarKind]
    case OperationMsg(_) => map[1 := BytesKind, 2 := ScalarKind, 3 := BytesKind]
    case ListOptionsMsg(_) => map[1 := BytesKind, 2 := BytesKind, 3 := BytesKind, 4 := BytesKind]
    case ValidationMsg(_) =>
      map n | n in VALIDATION_SCALARS + VALIDATION_BYTES :: if n in VALIDATION_SCALARS then ScalarKind else BytesKind
  }

  predicate SameKind(m: Message, n: Message) {
    EmptyOf(m) == EmptyOf(n)
  }

  // ---- Decoding ----

  function PayloadSize(t: Token): nat {
    if t.Chunk? then |t.payload| else 0
  }

  /** `Unmarshal`: fold the fields of b into m, one after the other. `base` counts the bytes of the
      buffer already read. */
  function Parse(m: Message, b: bytes, base: nat): (r: Result<Message>)
    ensures r.Ok? ==> SameKind(m, r.value)
    decreases |b|, 1
  {
    if b == [] then Ok(m) else
    var f :- NextField(SchemaOf(m), b, base);
    var m' :- Apply(m, f.token);
    Parse(m', b[f.len..], base + f.len)
  }

  /** The `switch fieldNum`: overwrite a scalar, append to a list, merge into an embedded message. */
  function Apply(m: Message, t: Token): (r: Result<Message>)
    ensures r.Ok? ==> SameKind(m, r.value)
    decreases PayloadSize(t), 2
  {
    match t
    case Unknown => Ok(m)
    case Scalar(num, v) => Ok(ApplyScalar(m, num, v))
    case Chunk(num, p) =>
      match Child(m, num)
      case None => Ok(ApplyBytes(m, num, p))
      case Some(start) => var c :- Parse(start, p, 0); Ok(Attach(m, num, c))
  }

  /** The message that a length-delimited field is decoded into: a new one for a list element, the
      present one (made if absent) for a singular field. None when the field is a string. */
  function Child(m: Message, num: int): Option<Message> {
    match m
    case CriterionMsg(c) => if num == 2 then Some(AnyMsg(OrElse(c.matchValue, EMPTY_ANY))) else None
    case OperationMsg(o) =>
      if num == 1 then Some(CriterionMsg(EMPTY_CRITERION)) else Some(OperationMsg(EMPTY_OPERATION))
    case ListOptionsMsg(l) =>
      if num == 1 then Some(OrderByMsg(EMPTY_ORDER_BY))
      else if num == 2 then Some(OperationMsg(OrElse(l.operation, EMPTY_OPERATION)))
      else if num == 3 then Some(PaginationMsg(OrElse(l.pagination, EMPTY_PAGINATION)))
      else None
    case ValidationMsg(w) =>
      if num == 401 then Some(ValidationMsg(OrElse(w.items, EMPTY_VALIDATION)))
      else if num == 402 then Some(ValidationMsg(OrElse(w.keys, EMPTY_VALIDATION)))
      else if num == 403 then Some(ValidationMsg(OrElse(w.values, EMPTY_VALIDATION)))
      else None
    case _ => None
  }

  function OrElse<T>(o: Option<T>, d: T): T {
    if o.Some? then o.value else d
  }

  /** Append the decoded element, or put the decoded message back. */
  function Attach(m: Message, num: int, c: Message): (r: Message)
    requires Child(m, num).Some? && SameKind(Child(m, num).value, c)
    ensures SameKind(m, r)
  {
    match m
    case CriterionMsg(k) => CriterionMsg(k.(matchValue := Some(c.any)))
    case OperationMsg(o) =>
      OperationMsg(if num == 1 then o.(criterion := o.criterion + [c.criterion])
                   else o.(subOperations := o.subOperations + [c.operation]))
    case ListOptionsMsg(l) =>
      ListOptionsMsg(if num == 1 then l.(orderBy := l.orderBy + [c.orderBy])
                     else if num == 2 then l.(operation := Some(c.operation))
                     else l.(pagination := Some(c.pagination)))
    case ValidationMsg(w) =>
      ValidationMsg(if num == 401 then w.(items := Some(c.validation))
                    else if num == 402 then w.(keys := Some(c.validation))
                    else w.(values := Some(c.validation)))
  }

  function ApplyScalar(m: Message, num: int, v: uint64): (r: Message)
    ensures SameKind(m, r)
  {
    match m
    case OrderByMsg(o) => OrderByMsg(o.(dir := ToInt32(v)))
    case PaginationMsg(p) =>
      PaginationMsg(if num == 1 then p.(offset := ToInt32(v)) else p.(limit := ToInt32(v)))
    case CriterionMsg(c) => CriterionMsg(c.(operator := ToInt32(v)))
    case OperationMsg(o) => OperationMsg(o.(logicalOperator := ToInt32(v)))
    case ValidationMsg(w) => ValidationMsg(ApplyFlag(w, num, v != 0))
    case _ => m
  }

  function ApplyFlag(w: Validation, num: int, b: bool): Validation {
    if num == 101 then w.(presence := Optional(b))
    else if num == 102 then w.(presence := Required(b))
    else if num !in FLAG_NUMBERS then w
    else w.(flags := if b then w.flags + {num} else w.flags - {num})
  }

  /** Strings and lists of strings. */
  function ApplyBytes(m: Message, num: int, p: bytes): (r: Message)
    ensures SameKind(m, r)
  {
    match m
    case AnyMsg(a) => AnyMsg(if num == 1 then a.(typeUrl := p) else a.(value := p))
    case OrderByMsg(o) => OrderByMsg(o.(field := p))
    case CriterionMsg(c) => CriterionMsg(c.(fieldName := p))
    case ListOptionsMsg(l) => ListOptionsMsg(l.(returnedFieldSkipList := l.returnedFieldSkipList + [p]))
    case ValidationMsg(w) => ValidationMsg(ApplyText(w, num, p))
    case _ => m
  }

  function ApplyText(w: Validation, num: int, p: bytes): Validation {
    if num == 10 then w.(within := w.within + [p])
    else if num == 11 then w.(notWithin := w.notWithin + [p])
    else w.(texts := SetText(w.texts, num, p))
  }

  function SetText(t: Texts, num: int, p: bytes): Texts {
    if num == 1 then t.(min := p)
    else if num == 2 then t.(max := p)
    else if num == 3 then t.(maxItems := p)
    else if num == 4 then t.(minItems := p)
    else if num == 6 then t.(maxLength := p)
    else if num == 7 then t.(minLength := p)
    else if num == 8 then t.(pattern := p)
    else if num == 9 then t.(notPattern := p)
    else t.(msg := p)
  }

  // ---- Encoding ----

  /** proto3 leaves out scalars and strings that hold their default. */
  function OptScalar(num: nat, v: uint64): bytes {
    if v == 0 then [] else ScalarField(num, v)
  }

  function OptBytes(num: nat, s: bytes): bytes {
    if s == [] then [] else BytesField(num, s)
  }

  function OptFlag(num: nat, b: bool): bytes {
    if b then ScalarField(num, 1) else []
  }

  function EncStrings(num: nat, ss: seq<bytes>): bytes {
    if ss == [] then [] else BytesField(num, ss[0]) + EncStrings(num, ss[1..])
  }

  function EncAny(a: Any): bytes {
    OptBytes(1, a.typeUrl) + OptBytes(2, a.value)
  }

  function EncOrderBy(o: OrderBy): bytes {
    OptBytes(1, o.field) + OptScalar(2, SignExtend(o.dir))
  }

  function EncPagination(p: PaginationSpec): bytes {
    OptScalar(1, SignExtend(p.offset)) + OptScalar(2, SignExtend(p.limit))
  }

  function EncCriterion(c: Criterion): bytes {
    OptBytes(1, c.fieldName)
    + (if c.matchValue.Some? then BytesField(2, EncAny(c.matchValue.value)) else [])
    + OptScalar(3, SignExtend(c.operator))
  }

  function EncCriteria(cs: seq<Criterion>): bytes {
    if cs == [] then [] else BytesField(1, EncCriterion(cs[0])) + EncCriteria(cs[1..])
  }

  function EncOperation(o: CriterionOperation): bytes {
    EncCriteria(o.criterion) + OptScalar(2, SignExtend(o.logicalOperator)) + EncOperations(o.subOperations)
  }

  function EncOperations(os: seq<CriterionOperation>): bytes {
    if os == [] then [] else BytesField(3, EncOperation(os[0])) + EncOperations(os[1..])
  }

  function EncOrderBys(os: seq<OrderBy>): bytes {
    if os == [] then [] else BytesField(1, EncOrderBy(os[0])) + EncOrderBys(os[1..])
  }

  function EncListOptions(l: ListOptionsExt): bytes {
    EncOrderBys(l.orderBy)
    + (if l.operation.Some? then BytesField(2, EncOperation(l.operation.value)) else [])
    + (if l.pagination.Some? then BytesField(3, EncPagination(l.pagination.value)) else [])
    + EncStrings(4, l.returnedFieldSkipList)
  }

  /** Fields 1 to 11. */
  function EncValidationTexts(w: Validation): bytes {
    var t := w.texts;
    OptBytes(1, t.min) + OptBytes(2, t.max) + OptBytes(3, t.maxItems) + OptBytes(4, t.minItems)
    + OptFlag(5, 5 in w.flags)
    + OptBytes(6, t.maxLength) + OptBytes(7, t.minLength) + OptBytes(8, t.pattern) + OptBytes(9, t.notPattern)
    + EncStrings(10, w.within) + EncStrings(11, w.notWithin)
  }

  /** The oneof is written whenever a case is set, its bool as 1 or 0. */
  function EncPresence(p: Presence): bytes {
    match p
    case Unset => []
    case Optional(b) => ScalarField(101, if b then 1 else 0)
    case Required(b) => ScalarField(102, if b then 1 else 0)
  }

  /** Fields 101 to 308. */
  function EncValidationFlags(w: Validation): bytes {
    var f := w.flags;
    EncPresence(w.presence) + OptFlag(103, 103 in f) + OptFlag(104, 104 in f) + OptBytes(201, w.texts.msg)
    + OptFlag(301, 301 in f) + OptFlag(302, 302 in f) + OptFlag(303, 303 in f) + OptFlag(304, 304 in f)
    + OptFlag(305, 305 in f) + OptFlag(306, 306 in f) + OptFlag(307, 307 in f) + OptFlag(308, 308 in f)
  }

  function EncValidation(w: Validation): bytes {
    EncValidationTexts(w) + EncValidationFlags(w)
    + (if w.items.Some? then BytesField(401, EncValidation(w.items.value)) else [])
    + (if w.keys.Some? then BytesField(402, EncValidation(w.keys.value)) else [])
    + (if w.values.Some? then BytesField(403, EncValidation(w.values.value)) else [])
  }

  /** `Marshal` of any message. */
  function Enc(m: Message): bytes {
    match m
    case AnyMsg(a) => EncAny(a)
    case OrderByMsg(o) => EncOrderBy(o)
    case PaginationMsg(p) => EncPagination(p)
    case CriterionMsg(c) => EncCriterion(c)
    case OperationMsg(o) => EncOperation(o)
    case ListOptionsMsg(l) => EncListOptions(l)
    case ValidationMsg(w) => EncValidation(w)
  }
}
