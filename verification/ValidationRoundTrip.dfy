/** The `Validation` option: two-byte tags, a oneof, three optional children of its own type. */
module ValidationRoundTrip {
  import opened Wrappers
  import opened Varint
  import opened Fields
  import opened Messages
  import opened MessageLaws
  import opened RoundTrip

  /** The bytes a, read into an empty message, give x. */
  predicate Reads(a: bytes, x: Validation) {
    Decodes(ValidationMsg(EMPTY_VALIDATION), a, ValidationMsg(x))
  }

  predicate IsText(num: int) {
    num in {1, 2, 3, 4, 6, 7, 8, 9, 201}
  }

  /** The field numbered just before `num`. */
  function Prev(num: int): int {
    if num == 103 then 102 else if num == 201 then 104 else if num == 301 then 201 else num - 1
  }

  function TextOf(t: Texts, num: int): bytes {
    if num == 1 then t.min else if num == 2 then t.max else if num == 3 then t.maxItems
    else if num == 4 then t.minItems else if num == 6 then t.maxLength else if num == 7 then t.minLength
    else if num == 8 then t.pattern else if num == 9 then t.notPattern else t.msg
  }

  function TextsUpto(t: Texts, k: int): Texts {
    Texts(if k >= 1 then t.min else [], if k >= 2 then t.max else [], if k >= 3 then t.maxItems else [],
          if k >= 4 then t.minItems else [], if k >= 6 then t.maxLength else [], if k >= 7 then t.minLength else [],
          if k >= 8 then t.pattern else [], if k >= 9 then t.notPattern else [], if k >= 201 then t.msg else [])
  }

  function FlagsUpto(f: Flags, k: int): Flags {
    set n | n in f && n <= k
  }

  /** w with every field numbered above k at its default. */
  function Upto(w: Validation, k: int): Validation {
    Validation(TextsUpto(w.texts, k), FlagsUpto(w.flags, k),
               if k >= 10 then w.within else [], if k >= 11 then w.notWithin else [],
               if k >= 102 then w.presence else Unset, if k >= 401 then w.items else None,
               if k >= 402 then w.keys else None, if k >= 403 then w.values else None)
  }

  /** Between two neighbouring field numbers nothing else changes. */
  lemma TextUpto(w: Validation, num: int)
    requires IsText(num)
    ensures ApplyText(Upto(w, Prev(num)), num, TextOf(w.texts, num)) == Upto(w, num)
    ensures ApplyText(Upto(w, Prev(num)), num, []) == Upto(w, Prev(num))
  {
    assert FlagsUpto(w.flags, num) == FlagsUpto(w.flags, Prev(num));
    assert SetText(TextsUpto(w.texts, Prev(num)), num, TextOf(w.texts, num)) == TextsUpto(w.texts, num);
  }

  lemma FlagUpto(w: Validation, num: int)
    requires num in FLAG_NUMBERS
    ensures ApplyFlag(Upto(w, Prev(num)), num, num in w.flags) == Upto(w, num)
    ensures ApplyFlag(Upto(w, Prev(num)), num, false) == Upto(w, Prev(num))
  {
    assert TextsUpto(w.texts, num) == TextsUpto(w.texts, Prev(num));
    assert FlagsUpto(w.flags, num) - {num} == FlagsUpto(w.flags, Prev(num));
  }

  lemma TextStep(a: bytes, w: Validation, num: int)
    requires IsText(num) && Reads(a, Upto(w, Prev(num)))
    requires |a + OptBytes(num, TextOf(w.texts, num))| < TWO63
    ensures Reads(a + OptBytes(num, TextOf(w.texts, num)), Upto(w, num))
  {
    hide Decodes, OptBytes, ApplyText, Upto, TextOf, Prev, SchemaOf;
    var x, y := ValidationMsg(Upto(w, Prev(num))), ValidationMsg(Upto(w, num));
    TextUpto(w, num);
    KnownFields(x);
    OptBytesDecodes(x, num, TextOf(w.texts, num));
    Then(ValidationMsg(EMPTY_VALIDATION), a, x, OptBytes(num, TextOf(w.texts, num)), y);
  }

  lemma FlagStep(a: bytes, w: Validation, num: int)
    requires num in FLAG_NUMBERS && Reads(a, Upto(w, Prev(num)))
    requires |a + OptFlag(num, num in w.flags)| < TWO63
    ensures Reads(a + OptFlag(num, num in w.flags), Upto(w, num))
  {
    hide Decodes, OptFlag, ApplyFlag, Upto, Prev, SchemaOf;
    var x, y := ValidationMsg(Upto(w, Prev(num))), ValidationMsg(Upto(w, num));
    FlagUpto(w, num);
    KnownFields(x);
    OptFlagDecodes(x, num, num in w.flags);
    Then(ValidationMsg(EMPTY_VALIDATION), a, x, OptFlag(num, num in w.flags), y);
  }

  lemma {:induction false} ListStep(x: Validation, num: int, ss: seq<bytes>)
    requires num == 10 || num == 11
    requires |EncStrings(num, ss)| < TWO63
    ensures Decodes(ValidationMsg(x), EncStrings(num, ss), ValidationMsg(AddStrings(x, num, ss)))
    decreases ss
  {
    hide Decodes, BytesField, SchemaOf;
    if ss == [] {
      DecodesNothing(ValidationMsg(x));
      assert x.within + ss == x.within && x.notWithin + ss == x.notWithin;
    } else {
      var x1 := ApplyText(x, num, ss[0]);
      KnownFields(ValidationMsg(x));
      StringDecodes(ValidationMsg(x), num, ss[0]);
      ListStep(x1, num, ss[1..]);
      assert x1.within + ss[1..] == if num == 10 then x.within + ss else x.within + ss[1..];
      assert x1.notWithin + ss[1..] == if num == 11 then x.notWithin + ss else x.notWithin + ss[1..];
      Then(ValidationMsg(x), BytesField(num, ss[0]), ValidationMsg(x1), EncStrings(num, ss[1..]),
           ValidationMsg(AddStrings(x, num, ss)));
    }
  }

  function AddStrings(x: Validation, num: int, ss: seq<bytes>): Validation {
    if num == 10 then x.(within := x.within + ss) else x.(notWithin := x.notWithin + ss)
  }

  lemma KnownFields(m: Message)
    requires m.ValidationMsg?
    ensures forall n :: n in VALIDATION_BYTES ==> n in SchemaOf(m) && SchemaOf(m)[n].BytesKind?
    ensures forall n :: n in VALIDATION_SCALARS ==> n in SchemaOf(m) && SchemaOf(m)[n].ScalarKind?
  {
    assert VALIDATION_SCALARS !! VALIDATION_BYTES;
  }

  lemma TextsDecode(w: Validation)
    requires |EncValidationTexts(w)| < TWO63
    ensures Reads(EncValidationTexts(w), Upto(w, 11))
  {
    hide Reads, OptBytes, OptFlag, EncStrings, Upto;
    ReadsNothing(w);
    TextStep([], w, 1);
    assert [] + OptBytes(1, w.texts.min) == OptBytes(1, w.texts.min);
    var a1 := OptBytes(1, w.texts.min);
    TextStep(a1, w, 2);
    var a2 := a1 + OptBytes(2, w.texts.max);
    TextStep(a2, w, 3);
    var a3 := a2 + OptBytes(3, w.texts.maxItems);
    TextStep(a3, w, 4);
    var a4 := a3 + OptBytes(4, w.texts.minItems);
    FlagStep(a4, w, 5);
    var a5 := a4 + OptFlag(5, 5 in w.flags);
    TextStep(a5, w, 6);
    var a6 := a5 + OptBytes(6, w.texts.maxLength);
    TextStep(a6, w, 7);
    var a7 := a6 + OptBytes(7, w.texts.minLength);
    TextStep(a7, w, 8);
    var a8 := a7 + OptBytes(8, w.texts.pattern);
    TextStep(a8, w, 9);
    var a9 := a8 + OptBytes(9, w.texts.notPattern);
    ListsDecode(a9, w);
  }

  lemma ReadsNothing(w: Validation)
    ensures Reads([], Upto(w, 0))
  {
    assert FlagsUpto(w.flags, 0) == {};
  }

  lemma ListsDecode(a: bytes, w: Validation)
    requires Reads(a, Upto(w, 9))
    requires |a + EncStrings(10, w.within) + EncStrings(11, w.notWithin)| < TWO63
    ensures Reads(a + EncStrings(10, w.within) + EncStrings(11, w.notWithin), Upto(w, 11))
  {
    hide Decodes, EncStrings;
    assert FlagsUpto(w.flags, 9) == FlagsUpto(w.flags, 10) == FlagsUpto(w.flags, 11);
    var m0, m1, m2 := ValidationMsg(Upto(w, 9)), ValidationMsg(Upto(w, 10)), ValidationMsg(Upto(w, 11));
    var s1, s2 := EncStrings(10, w.within), EncStrings(11, w.notWithin);
    ListStep(Upto(w, 9), 10, w.within);
    ListStep(Upto(w, 10), 11, w.notWithin);
    assert [] + w.within == w.within && [] + w.notWithin == w.notWithin;
    Then(ValidationMsg(EMPTY_VALIDATION), a, m0, s1, m1);
    Then(ValidationMsg(EMPTY_VALIDATION), a + s1, m1, s2, m2);
  }

  /** The oneof keeps which case is set even when its bool is false. */
  lemma PresenceStep(a: bytes, w: Validation)
    requires Reads(a, Upto(w, 11)) && |a + EncPresence(w.presence)| < TWO63
    ensures Reads(a + EncPresence(w.presence), Upto(w, 102))
  {
    hide Decodes, ScalarField, SchemaOf, ApplyFlag;
    PresenceUpto(w);
    var m, n := ValidationMsg(Upto(w, 11)), ValidationMsg(Upto(w, 102));
    match w.presence {
      case Unset => assert a + [] == a;
      case Optional(b) =>
        PresenceDecodes(Upto(w, 11), 101, b);
        Then(ValidationMsg(EMPTY_VALIDATION), a, m, EncPresence(w.presence), n);
      case Required(b) =>
        PresenceDecodes(Upto(w, 11), 102, b);
        Then(ValidationMsg(EMPTY_VALIDATION), a, m, EncPresence(w.presence), n);
    }
  }

  lemma PresenceUpto(w: Validation)
    ensures match w.presence
      case Unset => Upto(w, 102) == Upto(w, 11)
      case Optional(b) => Upto(w, 102) == ApplyFlag(Upto(w, 11), 101, b)
      case Required(b) => Upto(w, 102) == ApplyFlag(Upto(w, 11), 102, b)
  {
  }

  lemma PresenceDecodes(x: Validation, num: int, b: bool)
    requires num == 101 || num == 102
    ensures Decodes(ValidationMsg(x), ScalarField(num, if b then 1 else 0), ValidationMsg(ApplyFlag(x, num, b)))
  {
    hide Parse, ScalarField, SchemaOf, ApplyFlag;
    KnownFields(ValidationMsg(x));
    ParseScalarField(ValidationMsg(x), num, if b then 1 else 0);
  }

  lemma FlagsDecode(a: bytes, w: Validation)
    requires Reads(a, Upto(w, 11)) && |AppendFlags(a, w)| < TWO63
    ensures Reads(AppendFlags(a, w), Upto(w, 308))
  {
    hide Reads, OptBytes, OptFlag, EncPresence, Upto;
    PresenceStep(a, w);
    var a1 := a + EncPresence(w.presence);
    FlagStep(a1, w, 103);
    var a2 := a1 + OptFlag(103, 103 in w.flags);
    FlagStep(a2, w, 104);
    var a3 := a2 + OptFlag(104, 104 in w.flags);
    TextStep(a3, w, 201);
    var a4 := a3 + OptBytes(201, w.texts.msg);
    FlagStep(a4, w, 301);
    var a5 := a4 + OptFlag(301, 301 in w.flags);
    FlagStep(a5, w, 302);
    var a6 := a5 + OptFlag(302, 302 in w.flags);
    FlagStep(a6, w, 303);
    var a7 := a6 + OptFlag(303, 303 in w.flags);
    FlagStep(a7, w, 304);
    var a8 := a7 + OptFlag(304, 304 in w.flags);
    FlagStep(a8, w, 305);
    var a9 := a8 + OptFlag(305, 305 in w.flags);
    FlagStep(a9, w, 306);
    var a10 := a9 + OptFlag(306, 306 in w.flags);
    FlagStep(a10, w, 307);
    var a11 := a10 + OptFlag(307, 307 in w.flags);
    FlagStep(a11, w, 308);
  }

  /** a + EncValidationFlags(w), with the parentheses to the left. */
  function AppendFlags(a: bytes, w: Validation): bytes {
    a + EncPresence(w.presence) + OptFlag(103, 103 in w.flags) + OptFlag(104, 104 in w.flags)
    + OptBytes(201, w.texts.msg)
    + OptFlag(301, 301 in w.flags) + OptFlag(302, 302 in w.flags) + OptFlag(303, 303 in w.flags)
    + OptFlag(304, 304 in w.flags)
    + OptFlag(305, 305 in w.flags) + OptFlag(306, 306 in w.flags) + OptFlag(307, 307 in w.flags)
    + OptFlag(308, 308 in w.flags)
  }

  lemma JoinFlags(a: bytes, w: Validation)
    ensures AppendFlags(a, w) == a + EncValidationFlags(w)
  {
    hide OptFlag, OptBytes, EncPresence;
  }

  function EncChild(num: nat, c: Option<Validation>): bytes {
    if c.Some? then BytesField(num, EncValidation(c.value)) else []
  }

  predicate ChildReads(c: Option<Validation>) {
    c.Some? ==> Reads(EncValidation(c.value), c.value)
  }

  lemma ChildrenDecode(a: bytes, w: Validation)
    requires Reads(a, Upto(w, 308)) && ChildReads(w.items) && ChildReads(w.keys) && ChildReads(w.values)
    requires |a + EncChild(401, w.items) + EncChild(402, w.keys) + EncChild(403, w.values)| < TWO63
    ensures Reads(a + EncChild(401, w.items) + EncChild(402, w.keys) + EncChild(403, w.values), w)
  {
    hide Reads, EncChild, Upto, ChildReads;
    ChildStep(a, w, 401);
    var a1 := a + EncChild(401, w.items);
    ChildStep(a1, w, 402);
    var a2 := a1 + EncChild(402, w.keys);
    ChildStep(a2, w, 403);
    UptoAll(w);
  }

  lemma UptoAll(w: Validation)
    ensures Upto(w, 403) == w
  {
  }

  lemma EncValidationParts(w: Validation)
    ensures EncValidation(w) == EncValidationTexts(w) + EncValidationFlags(w)
      + EncChild(401, w.items) + EncChild(402, w.keys) + EncChild(403, w.values)
  {
    hide EncValidationTexts, EncValidationFlags, BytesField;
  }

  lemma ChildShorter(num: nat, c: Option<Validation>)
    requires c.Some?
    ensures |EncValidation(c.value)| < |EncChild(num, c)|
  {
    hide EncValidation, BytesField;
    BytesFieldLength(num, EncValidation(c.value));
  }

  /** The whole recursive tree. */
  lemma {:induction false} ValidationTreeRoundTrip(w: Validation)
    requires |EncValidation(w)| < TWO63
    ensures Reads(EncValidation(w), w)
    decreases w
  {
    hide Reads, EncValidationTexts, EncValidationFlags, EncValidation, EncChild;
    EncValidationParts(w);
    TextsDecode(w);
    JoinFlags(EncValidationTexts(w), w);
    FlagsDecode(EncValidationTexts(w), w);
    if w.items.Some? {
      ChildShorter(401, w.items);
      ValidationTreeRoundTrip(w.items.value);
    }
    if w.keys.Some? {
      ChildShorter(402, w.keys);
      ValidationTreeRoundTrip(w.keys.value);
    }
    if w.values.Some? {
      ChildShorter(403, w.values);
      ValidationTreeRoundTrip(w.values.value);
    }
    ChildrenDecode(EncValidationTexts(w) + EncValidationFlags(w), w);
  }

  function ChildOf(w: Validation, num: int): Option<Validation> {
    if num == 401 then w.items else if num == 402 then w.keys else w.values
  }

  lemma ChildUpto(w: Validation, num: int)
    requires num == 401 || num == 402 || num == 403
    ensures var p := if num == 401 then 308 else num - 1;
      var x := ValidationMsg(Upto(w, p));
      && Child(x, num) == Some(ValidationMsg(EMPTY_VALIDATION))
      && (ChildOf(w, num).Some? ==>
            Attach(x, num, ValidationMsg(ChildOf(w, num).value)) == ValidationMsg(Upto(w, num)))
      && (ChildOf(w, num).None? ==> Upto(w, p) == Upto(w, num))
  {
  }

  lemma ChildStep(a: bytes, w: Validation, num: int)
    requires num == 401 || num == 402 || num == 403
    requires Reads(a, Upto(w, if num == 401 then 308 else num - 1))
    requires ChildReads(ChildOf(w, num)) && |a + EncChild(num, ChildOf(w, num))| < TWO63
    ensures Reads(a + EncChild(num, ChildOf(w, num)), Upto(w, num))
  {
    hide Decodes, BytesField, EncValidation, SchemaOf, Upto, ChildOf, Child, Attach;
    var m, n := ValidationMsg(Upto(w, if num == 401 then 308 else num - 1)), ValidationMsg(Upto(w, num));
    var c := ChildOf(w, num);
    ChildUpto(w, num);
    if c.Some? {
      KnownFields(m);
      EmbeddedDecodes(m, num, ValidationMsg(c.value));
      Then(ValidationMsg(EMPTY_VALIDATION), a, m, EncChild(num, c), n);
    } else {
      assert a + [] == a;
    }
  }

  // ---- Every message type ----

  /** `Unmarshal(Marshal(m))` into an empty message is m, for every message of the family. */
  lemma MarshalRoundTrip(m: Message)
    requires |Enc(m)| < TWO63
    ensures Parse(EmptyOf(m), Enc(m), 0) == Ok(m)
  {
    hide Parse, EncAny, EncOrderBy, EncPagination, EncCriterion, EncOperation, EncListOptions, EncValidation;
    match m
    case AnyMsg(a) => AnyRoundTrip(a);
    case OrderByMsg(o) => OrderByRoundTrip(o);
    case PaginationMsg(p) => PaginationRoundTrip(p);
    case CriterionMsg(c) => CriterionRoundTrip(c);
    case OperationMsg(o) => OperationRoundTrip(o);
    case ListOptionsMsg(l) => ListOptionsRoundTrip(l);
    case ValidationMsg(w) => ValidationTreeRoundTrip(w);
  }

  /** Hence no two messages of one type have the same encoding. */
  lemma MarshalInjective(m: Message, n: Message)
    requires SameKind(m, n) && |Enc(m)| < TWO63 && Enc(m) == Enc(n)
    ensures m == n
  {
    hide Parse, Enc;
    MarshalRoundTrip(m);
    MarshalRoundTrip(n);
  }
}
