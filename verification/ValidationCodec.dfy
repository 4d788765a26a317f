/** The message `Validation` as the generated code handles it: a struct that may hold three further ones. */
module ValidationCodec {
  import opened Wrappers
  import opened Varint
  import opened Fields
  import opened CodecBuffer
  import opened ListCodec
  import opened OptionsBuffer
  import opened Messages
  import opened ValidationRoundTrip

  // ---- Six fields in a row ----

  lemma NestSix(a: bytes, b: bytes, c: bytes, d: bytes, e: bytes, f: bytes, tail: bytes)
    ensures (a + b + c + d + e + f) + tail == a + (b + (c + (d + (e + (f + tail)))))
    ensures |a + b + c + d + e + f| == |a| + |b| + |c| + |d| + |e| + |f|
  {
    assert (a + b + c + d + e + f) + tail == (a + b + c + d + e) + (f + tail);
    assert (a + b + c + d + e) + (f + tail) == (a + b + c + d) + (e + (f + tail));
    assert (a + b + c + d) + (e + (f + tail)) == (a + b + c) + (d + (e + (f + tail)));
    assert (a + b + c) + (d + (e + (f + tail))) == (a + b) + (c + (d + (e + (f + tail))));
  }

  /** Fields 1 to 6. The encoding is cut into four such rows and three children. */
  function LowTexts(w: Validation): bytes {
    var t := w.texts;
    OptBytes(1, t.min) + OptBytes(2, t.max) + OptBytes(3, t.maxItems) + OptBytes(4, t.minItems)
    + OptFlag(5, 5 in w.flags) + OptBytes(6, t.maxLength)
  }

  function HighTexts(w: Validation): bytes {
    var t := w.texts;
    OptBytes(7, t.minLength) + OptBytes(8, t.pattern) + OptBytes(9, t.notPattern)
    + EncStrings(10, w.within) + EncStrings(11, w.notWithin) + []
  }

  function LowFlags(w: Validation): bytes {
    var f := w.flags;
    EncPresence(w.presence) + OptFlag(103, 103 in f) + OptFlag(104, 104 in f) + OptBytes(201, w.texts.msg)
    + OptFlag(301, 301 in f) + OptFlag(302, 302 in f)
  }

  function HighFlags(w: Validation): bytes {
    var f := w.flags;
    OptFlag(303, 303 in f) + OptFlag(304, 304 in f) + OptFlag(305, 305 in f) + OptFlag(306, 306 in f)
    + OptFlag(307, 307 in f) + OptFlag(308, 308 in f)
  }

  lemma TextHalves(w: Validation)
    ensures EncValidationTexts(w) == LowTexts(w) + HighTexts(w)
  {
    hide OptBytes, OptFlag, EncStrings;
    var t := w.texts;
    var a, b, c := OptBytes(7, t.minLength), OptBytes(8, t.pattern), OptBytes(9, t.notPattern);
    var d, e := EncStrings(10, w.within), EncStrings(11, w.notWithin);
    var low := LowTexts(w);
    assert EncValidationTexts(w) == low + a + b + c + d + e;
    Halves(low, a, b, c, d, e, []);
    assert low + a + b + c + d + e + [] == low + a + b + c + d + e;
  }

  lemma FlagHalves(w: Validation)
    ensures EncValidationFlags(w) == LowFlags(w) + HighFlags(w)
  {
    hide OptBytes, OptFlag, EncPresence;
    var f := w.flags;
    Halves(LowFlags(w), OptFlag(303, 303 in f), OptFlag(304, 304 in f), OptFlag(305, 305 in f), OptFlag(306, 306 in f),
           OptFlag(307, 307 in f), OptFlag(308, 308 in f));
  }

  lemma Halves(low: bytes, a: bytes, b: bytes, c: bytes, d: bytes, e: bytes, f: bytes)
    ensures low + a + b + c + d + e + f == low + (a + b + c + d + e + f)
  {
    assert low + a + b == low + (a + b);
    assert low + (a + b) + c == low + (a + b + c);
    assert low + (a + b + c) + d == low + (a + b + c + d);
    assert low + (a + b + c + d) + e == low + (a + b + c + d + e);
    assert low + (a + b + c + d + e) + f == low + (a + b + c + d + e + f);
  }

  lemma SevenPieces(a: bytes, b: bytes, c: bytes, d: bytes, i: bytes, k: bytes, v: bytes)
    ensures (a + b) + (c + d) + i + k + v == a + (b + (c + (d + (i + (k + v)))))
  {
    assert (a + b) + (c + d) + i + k + v == (a + b) + (c + d) + i + (k + v);
    assert (a + b) + (c + d) + i + (k + v) == (a + b) + (c + d) + (i + (k + v));
    assert (a + b) + (c + d) + (i + (k + v)) == (a + b) + (c + (d + (i + (k + v))));
    assert (a + b) + (c + (d + (i + (k + v)))) == a + (b + (c + (d + (i + (k + v)))));
  }

  /** The whole encoding as its seven pieces. */
  lemma ValidationPieces(w: Validation)
    ensures EncValidation(w)
         == LowTexts(w) + (HighTexts(w) + (LowFlags(w) + (HighFlags(w)
            + (EncChild(401, w.items) + (EncChild(402, w.keys) + EncChild(403, w.values))))))
    ensures |EncValidation(w)| == |LowTexts(w)| + |HighTexts(w)| + |LowFlags(w)| + |HighFlags(w)|
            + |EncChild(401, w.items)| + |EncChild(402, w.keys)| + |EncChild(403, w.values)|
  {
    hide EncValidationTexts, EncValidationFlags, LowTexts, HighTexts, LowFlags, HighFlags, BytesField;
    TextHalves(w);
    FlagHalves(w);
    SevenPieces(LowTexts(w), HighTexts(w), LowFlags(w), HighFlags(w),
                EncChild(401, w.items), EncChild(402, w.keys), EncChild(403, w.values));
  }

  lemma LowTextsNest(w: Validation, tail: bytes)
    ensures LowTexts(w) + tail
         == OptBytes(1, w.texts.min) + (OptBytes(2, w.texts.max) + (OptBytes(3, w.texts.maxItems)
            + (OptBytes(4, w.texts.minItems) + (OptFlag(5, 5 in w.flags) + (OptBytes(6, w.texts.maxLength) + tail)))))
    ensures |LowTexts(w)|
         == |OptBytes(1, w.texts.min)| + |OptBytes(2, w.texts.max)| + |OptBytes(3, w.texts.maxItems)|
            + |OptBytes(4, w.texts.minItems)| + |OptFlag(5, 5 in w.flags)| + |OptBytes(6, w.texts.maxLength)|
  {
    hide OptBytes, OptFlag, EncStrings, EncPresence;
    NestSix(OptBytes(1, w.texts.min), OptBytes(2, w.texts.max), OptBytes(3, w.texts.maxItems),
            OptBytes(4, w.texts.minItems), OptFlag(5, 5 in w.flags), OptBytes(6, w.texts.maxLength), tail);
  }

  lemma HighTextsNest(w: Validation, tail: bytes)
    ensures HighTexts(w) + tail
         == OptBytes(7, w.texts.minLength) + (OptBytes(8, w.texts.pattern) + (OptBytes(9, w.texts.notPattern)
            + (EncStrings(10, w.within) + (EncStrings(11, w.notWithin) + tail))))
    ensures |HighTexts(w)|
         == |OptBytes(7, w.texts.minLength)| + |OptBytes(8, w.texts.pattern)| + |OptBytes(9, w.texts.notPattern)|
            + |EncStrings(10, w.within)| + |EncStrings(11, w.notWithin)|
  {
    hide OptBytes, OptFlag, EncStrings, EncPresence;
    assert [] + tail == tail;
    NestSix(OptBytes(7, w.texts.minLength), OptBytes(8, w.texts.pattern), OptBytes(9, w.texts.notPattern),
            EncStrings(10, w.within), EncStrings(11, w.notWithin), [], tail);
  }

  lemma LowFlagsNest(w: Validation, tail: bytes)
    ensures LowFlags(w) + tail
         == EncPresence(w.presence) + (OptFlag(103, 103 in w.flags) + (OptFlag(104, 104 in w.flags)
            + (OptBytes(201, w.texts.msg) + (OptFlag(301, 301 in w.flags) + (OptFlag(302, 302 in w.flags) + tail)))))
    ensures |LowFlags(w)|
         == |EncPresence(w.presence)| + |OptFlag(103, 103 in w.flags)| + |OptFlag(104, 104 in w.flags)|
            + |OptBytes(201, w.texts.msg)| + |OptFlag(301, 301 in w.flags)| + |OptFlag(302, 302 in w.flags)|
  {
    hide OptBytes, OptFlag, EncStrings, EncPresence;
    NestSix(EncPresence(w.presence), OptFlag(103, 103 in w.flags), OptFlag(104, 104 in w.flags),
            OptBytes(201, w.texts.msg), OptFlag(301, 301 in w.flags), OptFlag(302, 302 in w.flags), tail);
  }

  lemma HighFlagsNest(w: Validation, tail: bytes)
    ensures HighFlags(w) + tail
         == OptFlag(303, 303 in w.flags) + (OptFlag(304, 304 in w.flags) + (OptFlag(305, 305 in w.flags)
            + (OptFlag(306, 306 in w.flags) + (OptFlag(307, 307 in w.flags) + (OptFlag(308, 308 in w.flags) + tail)))))
    ensures |HighFlags(w)|
         == |OptFlag(303, 303 in w.flags)| + |OptFlag(304, 304 in w.flags)| + |OptFlag(305, 305 in w.flags)|
            + |OptFlag(306, 306 in w.flags)| + |OptFlag(307, 307 in w.flags)| + |OptFlag(308, 308 in w.flags)|
  {
    hide OptBytes, OptFlag, EncStrings, EncPresence;
    NestSix(OptFlag(303, 303 in w.flags), OptFlag(304, 304 in w.flags), OptFlag(305, 305 in w.flags),
            OptFlag(306, 306 in w.flags), OptFlag(307, 307 in w.flags), OptFlag(308, 308 in w.flags), tail);
  }

  /** The two-byte tags that the generated code writes. */
  function LongTag(num: nat): bytes {
    match num
    case 101 => [0xa8, 0x6] case 102 => [0xb0, 0x6] case 103 => [0xb8, 0x6] case 104 => [0xc0, 0x6]
    case 201 => [0xca, 0xc]
    case 301 => [0xe8, 0x12] case 302 => [0xf0, 0x12] case 303 => [0xf8, 0x12] case 304 => [0x80, 0x13]
    case 305 => [0x88, 0x13] case 306 => [0x90, 0x13] case 307 => [0x98, 0x13] case 308 => [0xa0, 0x13]
    case 401 => [0x8a, 0x19] case 402 => [0x92, 0x19] case 403 => [0x9a, 0x19]
    case _ => []
  }

  /** They are the varints of field number times eight plus wire type: 2 for msg and the children, else 0. */
  lemma LongTagIs(num: nat)
    requires num in {101, 102, 103, 104, 201, 301, 302, 303, 304, 305, 306, 307, 308, 401, 402, 403}
    ensures LongTag(num) == TagBytes(num, if num == 201 || num > 400 then 2 else 0)
  {
    hide TagBytes;
    TwoByteTag(num, if num == 201 || num > 400 then 2 else 0);
  }

  /** What an embedded message holds after another occurrence of its field. */
  function MergedChild(c: Option<Validation>, p: bytes): Result<Validation> {
    var start := ValidationMsg(OrElse(c, EMPTY_VALIDATION));
    var m :- Parse(start, p, 0);
    StaysValidation(start, m);
    Ok(m.validation)
  }

  lemma StaysValidation(m: Message, n: Message)
    requires m.ValidationMsg? && SameKind(m, n)
    ensures n.ValidationMsg?
  {
  }

  /** w with the child v behind the pointers named. */
  function WithChildren(w: Validation, v: Validation, items: bool, keys: bool, values: bool): Validation {
    w.(items := if items then Some(v) else w.items, keys := if keys then Some(v) else w.keys,
       values := if values then Some(v) else w.values)
  }

  /** The fold's result for a child field. */
  function WithChild(w: Validation, num: int, v: Validation): Validation {
    if num == 401 then w.(items := Some(v)) else if num == 402 then w.(keys := Some(v)) else w.(values := Some(v))
  }

  lemma SharedIsFoldIff(w: Validation, num: int, before: Validation, v: Validation, items: bool, keys: bool,
                        values: bool)
    requires num in {401, 402, 403} && (if num == 401 then items else if num == 402 then keys else values)
    requires (items ==> w.items == Some(before)) && (keys ==> w.keys == Some(before))
    requires values ==> w.values == Some(before)
    ensures WithChildren(w, v, items, keys, values) == WithChild(w, num, v)
       <==> v == before || ((num != 401 ==> !items) && (num != 402 ==> !keys) && (num != 403 ==> !values))
  {
  }

  lemma AbsentIsEmpty(c: Option<Validation>, p: bytes)
    ensures MergedChild(Some(OrElse(c, EMPTY_VALIDATION)), p) == MergedChild(c, p)
  {
  }

  // ---- The struct ----

  class ValidationMessage {
    var texts: Texts
    var flags: Flags
    var within: seq<bytes>
    var notWithin: seq<bytes>
    var presence: Presence
    var items: ValidationMessage?
    var keys: ValidationMessage?
    var values: ValidationMessage?
    ghost var Nodes: set<ValidationMessage>
    ghost var value: Validation

    /** A pointer to a message below this one, and what it holds. */
    ghost predicate Holds(c: ValidationMessage?, v: Option<Validation>, apart: bool)
      reads this, Nodes
      decreases Nodes, 0
    {
      if c == null then v == None
      else this in Nodes && c in Nodes && c.Nodes <= Nodes - {this} && c.Valid(apart) && v == Some(c.value)
    }

    /** Two pointers without common parts. */
    ghost predicate Apart(a: ValidationMessage?, b: ValidationMessage?)
      reads a, b
    {
      a != null && b != null ==> a.Nodes !! b.Nodes
    }

    /** No pointer leads back up; `value` is what the message holds. Pointers may share nodes, unless `apart`:
        then the message is a tree. */
    ghost predicate Valid(apart: bool)
      reads this, Nodes
      decreases Nodes, 1
    {
      && this in Nodes && HoldsFlat(value)
      && Holds(items, value.items, apart) && Holds(keys, value.keys, apart) && Holds(values, value.values, apart)
      && (apart ==> Apart(items, keys) && Apart(items, values) && Apart(keys, values))
    }

    lemma {:induction false} TreeIsValid()
      requires Valid(true)
      ensures Valid(false)
      decreases Nodes
    {
      if items != null { assert this !in items.Nodes; items.TreeIsValid(); }
      if keys != null { assert this !in keys.Nodes; keys.TreeIsValid(); }
      if values != null { assert this !in values.Nodes; values.TreeIsValid(); }
    }

    constructor ()
      ensures Valid(true) && Valid(false) && fresh(Nodes) && value == EMPTY_VALIDATION
    {
      texts, flags, within, notWithin, presence := NO_TEXTS, {}, [], [], Unset;
      items, keys, values := null, null, null;
      Nodes, value := {this}, EMPTY_VALIDATION;
    }

    /** The parts of the value that are not children. */
    ghost predicate HoldsFlat(w: Validation)
      reads this
    {
      && w.texts == texts && w.flags == flags && w.within == within && w.notWithin == notWithin
      && w.presence == presence
    }

    lemma FlatIs(w: Validation)
      requires HoldsFlat(w)
      ensures w.texts == texts && w.flags == flags && w.within == within && w.notWithin == notWithin
      ensures w.presence == presence
    {
    }

    /** The oneof wrapper: tag and bool, also when the bool is false. */
    method MarshalPresence(dAtA: array<byte>, at: nat, ghost start: bytes, ghost end: nat, ghost tail: bytes)
      returns (i: nat)
      requires |EncPresence(presence)| <= at && Emitted(start, dAtA[..], at, end, tail)
      modifies dAtA
      ensures i == at - |EncPresence(presence)| && Emitted(start, dAtA[..], i, end, EncPresence(presence) + tail)
    {
      LongTagIs(101); LongTagIs(102);
      hide ScalarField, TagBytes, LongTag, Emitted;
      i := at;
      match presence {
        case Unset => assert [] + tail == tail;
        case Optional(b) => i := PutBool(dAtA, at, LongTag(101), b, 101, start, end, tail);
        case Required(b) => i := PutBool(dAtA, at, LongTag(102), b, 102, start, end, tail);
      }
    }

    /** Fields 1 to 6. */
    method MarshalLowTexts(dAtA: array<byte>, at: nat, ghost w: Validation, ghost start: bytes, ghost end: nat,
                           ghost tail: bytes)
      returns (i: nat)
      requires HoldsFlat(w) && |LowTexts(w)| <= at <= dAtA.Length < TWO63 && Emitted(start, dAtA[..], at, end, tail)
      modifies dAtA
      ensures i == at - |LowTexts(w)| && Emitted(start, dAtA[..], i, end, LowTexts(w) + tail)
    {
      hide *;
      FlatIs(w);
      LowTextsNest(w, tail);
      OneByteTag(1, 2); OneByteTag(2, 2); OneByteTag(3, 2);
      OneByteTag(4, 2); OneByteTag(5, 0); OneByteTag(6, 2);
      i := at;
      ghost var rest := tail;
      i := PutText(dAtA, i, [0x32], texts.maxLength, 6, start, end, rest);
      rest := OptBytes(6, texts.maxLength) + rest;
      i := PutFlag(dAtA, i, [0x28], 5 in flags, 5, start, end, rest);
      rest := OptFlag(5, 5 in flags) + rest;
      i := PutText(dAtA, i, [0x22], texts.minItems, 4, start, end, rest);
      rest := OptBytes(4, texts.minItems) + rest;
      i := PutText(dAtA, i, [0x1a], texts.maxItems, 3, start, end, rest);
      rest := OptBytes(3, texts.maxItems) + rest;
      i := PutText(dAtA, i, [0x12], texts.max, 2, start, end, rest);
      rest := OptBytes(2, texts.max) + rest;
      i := PutText(dAtA, i, [0xa], texts.min, 1, start, end, rest);
    }

    /** Fields 7 to 11. */
    method MarshalHighTexts(dAtA: array<byte>, at: nat, ghost w: Validation, ghost start: bytes, ghost end: nat,
                            ghost tail: bytes)
      returns (i: nat)
      requires HoldsFlat(w) && |HighTexts(w)| <= at <= dAtA.Length < TWO63 && Emitted(start, dAtA[..], at, end, tail)
      modifies dAtA
      ensures i == at - |HighTexts(w)| && Emitted(start, dAtA[..], i, end, HighTexts(w) + tail)
    {
      hide *;
      FlatIs(w);
      HighTextsNest(w, tail);
      OneByteTag(7, 2); OneByteTag(8, 2); OneByteTag(9, 2);
      OneByteTag(10, 2); OneByteTag(11, 2);
      i := at;
      ghost var rest := tail;
      i := PutStrings(dAtA, i, 0x5a, notWithin, 11, start, end, rest);
      rest := EncStrings(11, notWithin) + rest;
      i := PutStrings(dAtA, i, 0x52, within, 10, start, end, rest);
      rest := EncStrings(10, within) + rest;
      i := PutText(dAtA, i, [0x4a], texts.notPattern, 9, start, end, rest);
      rest := OptBytes(9, texts.notPattern) + rest;
      i := PutText(dAtA, i, [0x42], texts.pattern, 8, start, end, rest);
      rest := OptBytes(8, texts.pattern) + rest;
      i := PutText(dAtA, i, [0x3a], texts.minLength, 7, start, end, rest);
    }

    /** The oneof and fields 103 to 302. */
    method MarshalLowFlags(dAtA: array<byte>, at: nat, ghost w: Validation, ghost start: bytes, ghost end: nat,
                           ghost tail: bytes)
      returns (i: nat)
      requires HoldsFlat(w) && |LowFlags(w)| <= at <= dAtA.Length < TWO63 && Emitted(start, dAtA[..], at, end, tail)
      modifies dAtA
      ensures i == at - |LowFlags(w)| && Emitted(start, dAtA[..], i, end, LowFlags(w) + tail)
    {
      hide *;
      FlatIs(w);
      LowFlagsNest(w, tail);
      LongTagIs(103); LongTagIs(104); LongTagIs(201);
      LongTagIs(301); LongTagIs(302);
      i := at;
      ghost var rest := tail;
      i := PutFlag(dAtA, i, LongTag(302), 302 in flags, 302, start, end, rest);
      rest := OptFlag(302, 302 in flags) + rest;
      i := PutFlag(dAtA, i, LongTag(301), 301 in flags, 301, start, end, rest);
      rest := OptFlag(301, 301 in flags) + rest;
      i := PutText(dAtA, i, LongTag(201), texts.msg, 201, start, end, rest);
      rest := OptBytes(201, texts.msg) + rest;
      i := PutFlag(dAtA, i, LongTag(104), 104 in flags, 104, start, end, rest);
      rest := OptFlag(104, 104 in flags) + rest;
      i := PutFlag(dAtA, i, LongTag(103), 103 in flags, 103, start, end, rest);
      rest := OptFlag(103, 103 in flags) + rest;
      i := MarshalPresence(dAtA, i, start, end, rest);
    }

    /** Fields 303 to 308. */
    method MarshalHighFlags(dAtA: array<byte>, at: nat, ghost w: Validation, ghost start: bytes, ghost end: nat,
                            ghost tail: bytes)
      returns (i: nat)
      requires HoldsFlat(w) && |HighFlags(w)| <= at <= dAtA.Length < TWO63 && Emitted(start, dAtA[..], at, end, tail)
      modifies dAtA
      ensures i == at - |HighFlags(w)| && Emitted(start, dAtA[..], i, end, HighFlags(w) + tail)
    {
      hide *;
      FlatIs(w);
      HighFlagsNest(w, tail);
      LongTagIs(303); LongTagIs(304); LongTagIs(305);
      LongTagIs(306); LongTagIs(307); LongTagIs(308);
      i := at;
      ghost var rest := tail;
      i := PutFlag(dAtA, i, LongTag(308), 308 in flags, 308, start, end, rest);
      rest := OptFlag(308, 308 in flags) + rest;
      i := PutFlag(dAtA, i, LongTag(307), 307 in flags, 307, start, end, rest);
      rest := OptFlag(307, 307 in flags) + rest;
      i := PutFlag(dAtA, i, LongTag(306), 306 in flags, 306, start, end, rest);
      rest := OptFlag(306, 306 in flags) + rest;
      i := PutFlag(dAtA, i, LongTag(305), 305 in flags, 305, start, end, rest);
      rest := OptFlag(305, 305 in flags) + rest;
      i := PutFlag(dAtA, i, LongTag(304), 304 in flags, 304, start, end, rest);
      rest := OptFlag(304, 304 in flags) + rest;
      i := PutFlag(dAtA, i, LongTag(303), 303 in flags, 303, start, end, rest);
    }

    /** A child field with its two-byte tag, if there is a child. */
    method MarshalChild(c: ValidationMessage?, tag: bytes, dAtA: array<byte>, at: nat, ghost num: nat,
                        ghost v: Option<Validation>, ghost start: bytes, ghost end: nat, ghost tail: bytes)
      returns (i: nat)
      requires IsChild(c, v)
      requires TagBytes(num, 2) == tag
      requires |EncChild(num, v)| <= at <= dAtA.Length < TWO63
      requires Emitted(start, dAtA[..], at, end, tail)
      modifies dAtA
      ensures i == at - |EncChild(num, v)|
      ensures Emitted(start, dAtA[..], i, end, EncChild(num, v) + tail)
      decreases Nodes, 0
    {
      hide EncValidation, BytesField, TagBytes, Emitted;
      i := at;
      if c != null {
        ghost var payload := EncValidation(c.value);
        BytesFit(num, payload);
        ghost var now := dAtA[..];
        var size := c.MarshalToSizedBuffer(dAtA, at);
        EmittedInFront(start, now, dAtA[..], at - size, at, end, payload, tail);
        i := PutLongHeader(dAtA, at - size, tag, size, num, payload, start, end, tail);
      } else {
        assert [] + tail == tail;
      }
    }

    /** Writes the encoding into the last bytes of dAtA[..end], from field 403 down to field 1. */
    method MarshalToSizedBuffer(dAtA: array<byte>, end: nat) returns (n: nat)
      requires Valid(false) && |EncValidation(value)| <= end <= dAtA.Length < TWO63
      modifies dAtA
      ensures n == |EncValidation(value)|
      ensures Emitted(old(dAtA[..]), dAtA[..], end - n, end, EncValidation(value))
      decreases Nodes, 1
    {
      hide *;
      ChildrenBelow();
      ValidationPieces(value);
      LongTagIs(401); LongTagIs(402); LongTagIs(403);
      ghost var start, w := dAtA[..], value;
      NothingEmitted(start, end);
      var i := MarshalChild(values, LongTag(403), dAtA, end, 403, w.values, start, end, []);
      ghost var rest := EncChild(403, w.values);
      assert rest + [] == rest;
      i := MarshalChild(keys, LongTag(402), dAtA, i, 402, w.keys, start, end, rest);
      rest := EncChild(402, w.keys) + rest;
      i := MarshalChild(items, LongTag(401), dAtA, i, 401, w.items, start, end, rest);
      rest := EncChild(401, w.items) + rest;
      i := MarshalHighFlags(dAtA, i, w, start, end, rest);
      rest := HighFlags(w) + rest;
      i := MarshalLowFlags(dAtA, i, w, start, end, rest);
      rest := LowFlags(w) + rest;
      i := MarshalHighTexts(dAtA, i, w, start, end, rest);
      rest := HighTexts(w) + rest;
      i := MarshalLowTexts(dAtA, i, w, start, end, rest);
      n := end - i;
    }

    /** A child pointer and what it holds. */
    ghost predicate IsChild(c: ValidationMessage?, v: Option<Validation>)
      reads this, c, if c == null then {} else c.Nodes
    {
      if c == null then v == None else c.Valid(false) && c.Nodes < Nodes && v == Some(c.value)
    }

    /** What Valid says of the parts, for proofs that keep it closed. */
    lemma ChildrenBelow()
      requires Valid(false)
      ensures this in Nodes && HoldsFlat(value)
      ensures IsChild(items, value.items) && IsChild(keys, value.keys) && IsChild(values, value.values)
    {
      assert items != null ==> this !in items.Nodes;
      assert keys != null ==> this !in keys.Nodes;
      assert values != null ==> this !in values.Nodes;
    }

    /** `Marshal`: a buffer of exactly `Size()` bytes holding the encoding. */
    method Marshal() returns (dAtA: array<byte>)
      requires Valid(false) && |EncValidation(value)| < TWO63
      ensures fresh(dAtA) && dAtA[..] == EncValidation(value)
    {
      hide EncValidation;
      var size := Size();
      dAtA := new byte[size];
      var n := MarshalToSizedBuffer(dAtA, size);
    }

    method SizePresence() returns (n: nat)
      ensures n == |EncPresence(presence)|
    {
      n := 0;
      match presence {
        case Unset =>
        case Optional(b) => BoolFieldSize(101, b); n := 3;
        case Required(b) => BoolFieldSize(102, b); n := 3;
      }
    }

    method SizeLowTexts(ghost w: Validation) returns (n: nat)
      requires HoldsFlat(w)
      ensures n == |LowTexts(w)|
    {
      hide *;
      FlatIs(w);
      LowTextsNest(w, []);
      n := 0;
      var l;
      l := SizeText(texts.min, false, 1); n := n + l;
      l := SizeText(texts.max, false, 2); n := n + l;
      l := SizeText(texts.maxItems, false, 3); n := n + l;
      l := SizeText(texts.minItems, false, 4); n := n + l;
      OptFlagSize(5, 5 in flags); if 5 in flags { n := n + 2; }
      l := SizeText(texts.maxLength, false, 6); n := n + l;
    }

    method SizeHighTexts(ghost w: Validation) returns (n: nat)
      requires HoldsFlat(w)
      ensures n == |HighTexts(w)|
    {
      hide *;
      FlatIs(w);
      HighTextsNest(w, []);
      n := 0;
      var l;
      l := SizeText(texts.minLength, false, 7); n := n + l;
      l := SizeText(texts.pattern, false, 8); n := n + l;
      l := SizeText(texts.notPattern, false, 9); n := n + l;
      l := SizeStrings(within, 10); n := n + l;
      l := SizeStrings(notWithin, 11); n := n + l;
    }

    method SizeLowFlags(ghost w: Validation) returns (n: nat)
      requires HoldsFlat(w)
      ensures n == |LowFlags(w)|
    {
      hide *;
      FlatIs(w);
      LowFlagsNest(w, []);
      n := 0;
      var l;
      l := SizePresence(); n := n + l;
      OptFlagSize(103, 103 in flags); if 103 in flags { n := n + 3; }
      OptFlagSize(104, 104 in flags); if 104 in flags { n := n + 3; }
      l := SizeText(texts.msg, true, 201); n := n + l;
      OptFlagSize(301, 301 in flags); if 301 in flags { n := n + 3; }
      OptFlagSize(302, 302 in flags); if 302 in flags { n := n + 3; }
    }

    method SizeHighFlags(ghost w: Validation) returns (n: nat)
      requires HoldsFlat(w)
      ensures n == |HighFlags(w)|
    {
      hide *;
      FlatIs(w);
      HighFlagsNest(w, []);
      n := 0;
      OptFlagSize(303, 303 in flags); if 303 in flags { n := n + 3; }
      OptFlagSize(304, 304 in flags); if 304 in flags { n := n + 3; }
      OptFlagSize(305, 305 in flags); if 305 in flags { n := n + 3; }
      OptFlagSize(306, 306 in flags); if 306 in flags { n := n + 3; }
      OptFlagSize(307, 307 in flags); if 307 in flags { n := n + 3; }
      OptFlagSize(308, 308 in flags); if 308 in flags { n := n + 3; }
    }

    method SizeChild(c: ValidationMessage?, ghost num: nat, ghost v: Option<Validation>) returns (n: nat)
      requires IsChild(c, v)
      requires 128 <= 8 * num + 2 < 16384
      ensures n == |EncChild(num, v)|
      decreases Nodes, 0
    {
      hide EncValidation, BytesField, Sov;
      n := 0;
      if c != null {
        var l := c.Size();
        BytesFieldSize2(num, EncValidation(c.value));
        n := 2 + l + Sov(l);
      }
    }

    method Size() returns (n: nat)
      requires Valid(false)
      ensures n == |EncValidation(value)|
      decreases Nodes, 1
    {
      hide *;
      ChildrenBelow();
      ValidationPieces(value);
      n := SizeLowTexts(value);
      var l := SizeHighTexts(value); n := n + l;
      l := SizeLowFlags(value); n := n + l;
      l := SizeHighFlags(value); n := n + l;
      l := SizeChild(items, 401, value.items); n := n + l;
      l := SizeChild(keys, 402, value.keys); n := n + l;
      l := SizeChild(values, 403, value.values); n := n + l;
    }

    /** Merges the bytes into this message; children already present are updated in place. */
    method Unmarshal(dAtA: bytes) returns (err: Option<Error>)
      requires Valid(true) && |dAtA| < TWO63
      modifies Nodes
      ensures err.None? ==> Valid(true) && fresh(Nodes - old(Nodes))
      ensures var r := Parse(ValidationMsg(old(value)), dAtA, 0);
        if r.Err? then err == Some(r.error) else err == None && r.value == ValidationMsg(value)
      decreases |dAtA|, 1
    {
      hide *;
      WholeBuffer(ValidationMsg(value), dAtA);
      ghost var start := value;
      var iNdEx := 0;
      while iNdEx < |dAtA|
        invariant 0 <= iNdEx <= |dAtA|
        invariant Valid(true) && fresh(Nodes - old(Nodes))
        invariant Rest(ValidationMsg(start), dAtA, 0) == Rest(ValidationMsg(value), dAtA, iNdEx)
      {
        var e, next := UnmarshalField(dAtA, iNdEx);
        if e.Some? { return e; }
        iNdEx := next;
      }
      WholeBuffer(ValidationMsg(value), dAtA);
      err := None;
    }

    /** One turn of the loop. The nine strings, the eleven plain bools and the two oneof cases are each one
        case here. */
    method UnmarshalField(dAtA: bytes, i: nat) returns (err: Option<Error>, j: nat)
      requires Valid(true) && i < |dAtA| < TWO63
      modifies Nodes
      ensures err.Some? ==> Rest(ValidationMsg(old(value)), dAtA, i) == Err(err.value)
      ensures err.None? ==>
        && Valid(true) && fresh(Nodes - old(Nodes)) && i < j <= |dAtA|
        && Rest(ValidationMsg(old(value)), dAtA, i) == Rest(ValidationMsg(value), dAtA, j)
      decreases |dAtA|, 0
    {
      hide *;
      TreeIsValid();
      ChildrenBelow();
      ghost var now := ValidationMsg(value);
      j := i;
      var tag := ReadTagOfField(now, dAtA, i);
      if tag.Err? { return Some(tag.error), j; }
      var t := tag.value;
      ValidationSchema(value, t.num);
      if t.num in VALIDATION_BYTES {
        var span := ReadChunk(now, dAtA, i, t);
        if span.Err? { return Some(span.error), j; }
        j := span.value.end;
        var payload := dAtA[span.value.start..j];
        Advance(now, dAtA, i, Chunk(t.num, payload), j);
        if t.num == 401 {
          ValidationItems(value, payload);
          err := MergeItems(payload);
        } else if t.num == 402 {
          ValidationKeys(value, payload);
          err := MergeKeys(payload);
        } else if t.num == 403 {
          ValidationValues(value, payload);
          err := MergeValues(payload);
        } else {
          ValidationText(value, t.num, payload);
          SetTextField(t.num, payload);
          err := None;
        }
      } else if t.num in VALIDATION_SCALARS {
        var b, raw := ReadBool(now, dAtA, i, t);
        if b.Err? { return Some(b.error), j; }
        j := b.value.end;
        Advance(now, dAtA, i, Scalar(t.num, raw), j);
        ValidationScalar(value, t.num, raw);
        SetBoolField(t.num, b.value.value);
        err := None;
      } else {
        var skippy := ReadUnknown(now, dAtA, i, t);
        if skippy.Err? { return Some(skippy.error), j; }
        j := skippy.value;
        Advance(now, dAtA, i, Unknown, j);
        err := None;
      }
    }

    lemma Kin()
      requires Valid(false) || Valid(true)
      ensures this in Nodes
    {
    }

    /** A child is a member of its own tree. */
    lemma Family(a: ValidationMessage?, v: Option<Validation>, b: ValidationMessage?, w: Option<Validation>)
      requires Holds(a, v, true) && Holds(b, w, true)
      ensures a != null ==> a in a.Nodes
      ensures b != null ==> b in b.Nodes
    {
      if a != null { a.Kin(); }
      if b != null { b.Kin(); }
    }

    method SetTextField(num: int, payload: bytes)
      requires Valid(true)
      modifies this
      ensures Valid(true) && Nodes == old(Nodes) && value == ApplyText(old(value), num, payload)
    {
      hide SetText;
      if num == 10 {
        within := within + [payload];
      } else if num == 11 {
        notWithin := notWithin + [payload];
      } else {
        texts := SetText(texts, num, payload);
      }
      value := ApplyText(value, num, payload);
    }

    /** A later oneof case replaces an earlier one. */
    method SetBoolField(num: int, b: bool)
      requires Valid(true) && num in VALIDATION_SCALARS
      modifies this
      ensures Valid(true) && Nodes == old(Nodes) && value == ApplyFlag(old(value), num, b)
    {
      if num == 101 {
        presence := Optional(b);
      } else if num == 102 {
        presence := Required(b);
      } else if b {
        flags := flags + {num};
      } else {
        flags := flags - {num};
      }
      value := ApplyFlag(value, num, b);
    }

    /** `Unmarshal` of an embedded message that is there. */
    method MergeBytes(payload: bytes) returns (err: Option<Error>)
      requires Valid(true) && |payload| < TWO63
      modifies Nodes
      ensures err.None? ==> Valid(true) && fresh(Nodes - old(Nodes))
      ensures var r := MergedChild(Some(old(value)), payload);
        if r.Err? then err == Some(r.error) else err == None && value == r.value
      decreases |payload|, 2
    {
      hide Parse, EmptyOf, SchemaOf, HoldsFlat;
      err := Unmarshal(payload);
    }

    /** Makes the items message if it is absent. */
    method EnsureItems()
      requires Valid(true)
      modifies this
      ensures Valid(true) && fresh(Nodes - old(Nodes)) && items != null
      ensures value == old(value).(items := Some(OrElse(old(value.items), EMPTY_VALIDATION)))
    {
      if items == null {
        items := new ValidationMessage();
        Nodes := Nodes + items.Nodes;
        value := value.(items := Some(items.value));
      }
    }

    /** `Unmarshal` into the items message, made if absent. */
    method MergeItems(payload: bytes) returns (err: Option<Error>)
      requires Valid(true) && |payload| < TWO63
      modifies Nodes
      ensures err.None? ==> Valid(true) && fresh(Nodes - old(Nodes))
      ensures var r := MergedChild(old(value.items), payload);
        if r.Err? then err == Some(r.error) else err == None && value == old(value).(items := Some(r.value))
      decreases |payload|, 3
    {
      hide MergedChild, HoldsFlat;
      EnsureItems();
      Family(keys, value.keys, values, value.values);
      items.Kin();
      AbsentIsEmpty(old(value.items), payload);
      err := items.MergeBytes(payload);
      if err.Some? { return; }
      AdoptItems();
    }

    /** The pointer of field 401, 402 or 403. */
    function ChildAt(num: int): ValidationMessage?
      reads this
    {
      if num == 401 then items else if num == 402 then keys else values
    }

    /** No pointer of this message but that of the field goes to the field's message. */
    predicate SolePointer(num: int)
      requires num in {401, 402, 403}
      reads this
    {
      && (num != 401 ==> items != ChildAt(num))
      && (num != 402 ==> keys != ChildAt(num))
      && (num != 403 ==> values != ChildAt(num))
    }

    /** The case of a child field when other pointers of this message may go to the same child: what is merged
        shows through each of them. So the outcome is the fold's if and only if no other pointer goes there, or
        the payload leaves the child as it was. */
    method MergeShared(num: int, payload: bytes) returns (err: Option<Error>)
      requires Valid(false) && num in {401, 402, 403} && ChildAt(num) != null && ChildAt(num).Valid(true)
      requires items == ChildAt(num) || Apart(items, ChildAt(num))
      requires keys == ChildAt(num) || Apart(keys, ChildAt(num))
      requires values == ChildAt(num) || Apart(values, ChildAt(num))
      requires |payload| < TWO63
      modifies Nodes
      ensures err.None? ==> Valid(false)
      ensures var w, c := old(value), old(ChildAt(num));
        var r := MergedChild(Some(old(ChildAt(num).value)), payload);
        if r.Err? then err == Some(r.error)
        else
          && err == None && items == old(items) && keys == old(keys) && values == old(values)
          && value == WithChildren(w, r.value, items == c, keys == c, values == c)
          && (value == WithChild(w, num, r.value) <==> old(SolePointer(num)) || r.value == old(ChildAt(num).value))
    {
      hide MergedChild;
      var c := ChildAt(num);
      Pointees();
      err := c.MergeBytes(payload);
      if err.Some? { return; }
      ghost var before := old(c.value);
      SharedIsFoldIff(value, num, before, c.value, items == c, keys == c, values == c);
      AdoptShared(c);
    }

    /** Takes up what a child now holds, behind every pointer to it. */
    method AdoptShared(c: ValidationMessage)
      requires this in Nodes && HoldsFlat(value) && c.Valid(true) && this !in c.Nodes
      requires items == c || Holds(items, value.items, false)
      requires keys == c || Holds(keys, value.keys, false)
      requires values == c || Holds(values, value.values, false)
      modifies this
      ensures Valid(false) && items == old(items) && keys == old(keys) && values == old(values)
      ensures value == WithChildren(old(value), c.value, items == c, keys == c, values == c)
    {
      hide Valid;
      c.Kin();
      c.TreeIsValid();
      StaysOut(items, value.items, c);
      StaysOut(keys, value.keys, c);
      StaysOut(values, value.values, c);
      Nodes := Nodes + c.Nodes;
      value := WithChildren(value, c.value, items == c, keys == c, values == c);
      assert Holds(items, value.items, false) && Holds(keys, value.keys, false) && Holds(values, value.values, false);
      IsValid();
    }

    lemma StaysOut(p: ValidationMessage?, v: Option<Validation>, c: ValidationMessage)
      requires p == c || Holds(p, v, false)
      ensures p != null && p != c ==> p in p.Nodes && this !in p.Nodes && p.Nodes <= Nodes
    {
      if p != null && p != c { p.Kin(); }
    }

    lemma IsValid()
      requires this in Nodes && HoldsFlat(value)
      requires Holds(items, value.items, false) && Holds(keys, value.keys, false) && Holds(values, value.values, false)
      ensures Valid(false)
    {
    }

    lemma Pointees()
      requires Valid(false)
      ensures items != null ==> items in items.Nodes
      ensures keys != null ==> keys in keys.Nodes
      ensures values != null ==> values in values.Nodes
    {
      if items != null { items.Kin(); }
      if keys != null { keys.Kin(); }
      if values != null { values.Kin(); }
    }

    /** Takes up what the items message now holds. */
    method AdoptItems()
      requires this in Nodes && HoldsFlat(value) && items != null && items.Valid(true) && this !in items.Nodes
      requires Holds(keys, value.keys, true) && Holds(values, value.values, true)
      requires Apart(items, keys) && Apart(items, values) && Apart(keys, values)
      modifies this
      ensures Valid(true) && items != null && items == old(items) && Nodes == old(Nodes) + items.Nodes
      ensures value == old(value).(items := Some(items.value))
    {
      items.Kin();
      Family(keys, value.keys, values, value.values);
      Nodes := Nodes + items.Nodes;
      value := value.(items := Some(items.value));
    }

    /** Makes the keys message if it is absent. */
    method EnsureKeys()
      requires Valid(true)
      modifies this
      ensures Valid(true) && fresh(Nodes - old(Nodes)) && keys != null
      ensures value == old(value).(keys := Some(OrElse(old(value.keys), EMPTY_VALIDATION)))
    {
      if keys == null {
        keys := new ValidationMessage();
        Nodes := Nodes + keys.Nodes;
        value := value.(keys := Some(keys.value));
      }
    }

    /** `Unmarshal` into the keys message, made if absent. */
    method MergeKeys(payload: bytes) returns (err: Option<Error>)
      requires Valid(true) && |payload| < TWO63
      modifies Nodes
      ensures err.None? ==> Valid(true) && fresh(Nodes - old(Nodes))
      ensures var r := MergedChild(old(value.keys), payload);
        if r.Err? then err == Some(r.error) else err == None && value == old(value).(keys := Some(r.value))
      decreases |payload|, 3
    {
      hide MergedChild, HoldsFlat;
      EnsureKeys();
      Family(items, value.items, values, value.values);
      keys.Kin();
      AbsentIsEmpty(old(value.keys), payload);
      err := keys.MergeBytes(payload);
      if err.Some? { return; }
      AdoptKeys();
    }

    /** Takes up what the keys message now holds. */
    method AdoptKeys()
      requires this in Nodes && HoldsFlat(value) && keys != null && keys.Valid(true) && this !in keys.Nodes
      requires Holds(items, value.items, true) && Holds(values, value.values, true)
      requires Apart(items, keys) && Apart(items, values) && Apart(keys, values)
      modifies this
      ensures Valid(true) && keys != null && keys == old(keys) && Nodes == old(Nodes) + keys.Nodes
      ensures value == old(value).(keys := Some(keys.value))
    {
      keys.Kin();
      Family(items, value.items, values, value.values);
      Nodes := Nodes + keys.Nodes;
      value := value.(keys := Some(keys.value));
    }

    /** Makes the values message if it is absent. */
    method EnsureValues()
      requires Valid(true)
      modifies this
      ensures Valid(true) && fresh(Nodes - old(Nodes)) && values != null
      ensures value == old(value).(values := Some(OrElse(old(value.values), EMPTY_VALIDATION)))
    {
      if values == null {
        values := new ValidationMessage();
        Nodes := Nodes + values.Nodes;
        value := value.(values := Some(values.value));
      }
    }

    /** `Unmarshal` into the values message, made if absent. */
    method MergeValues(payload: bytes) returns (err: Option<Error>)
      requires Valid(true) && |payload| < TWO63
      modifies Nodes
      ensures err.None? ==> Valid(true) && fresh(Nodes - old(Nodes))
      ensures var r := MergedChild(old(value.values), payload);
        if r.Err? then err == Some(r.error) else err == None && value == old(value).(values := Some(r.value))
      decreases |payload|, 3
    {
      hide MergedChild, HoldsFlat;
      EnsureValues();
      Family(items, value.items, keys, value.keys);
      values.Kin();
      AbsentIsEmpty(old(value.values), payload);
      err := values.MergeBytes(payload);
      if err.Some? { return; }
      AdoptValues();
    }

    /** Takes up what the values message now holds. */
    method AdoptValues()
      requires this in Nodes && HoldsFlat(value) && values != null && values.Valid(true) && this !in values.Nodes
      requires Holds(items, value.items, true) && Holds(keys, value.keys, true)
      requires Apart(items, keys) && Apart(items, values) && Apart(keys, values)
      modifies this
      ensures Valid(true) && values != null && values == old(values) && Nodes == old(Nodes) + values.Nodes
      ensures value == old(value).(values := Some(values.value))
    {
      values.Kin();
      Family(items, value.items, keys, value.keys);
      Nodes := Nodes + values.Nodes;
      value := value.(values := Some(values.value));
    }

    method Equal(that: ValidationMessage?) returns (r: bool)
      requires Valid(false) && (that != null ==> that.Valid(false))
      ensures r <==> that != null && value == that.value
      decreases Nodes
    {
      if that == null { return false; }
      ChildrenBelow();
      that.ChildrenBelow();
      hide Valid;
      if texts != that.texts || flags != that.flags { return false; }
      if within != that.within || notWithin != that.notWithin { return false; }
      if presence != that.presence { return false; }
      r := SameChild(items, that.items, value.items, that.value.items);
      if !r { return; }
      r := SameChild(keys, that.keys, value.keys, that.value.keys);
      if !r { return; }
      r := SameChild(values, that.values, value.values, that.value.values);
    }

    /** `Equal` of two pointers: both nil, or both there and equal. */
    method SameChild(a: ValidationMessage?, b: ValidationMessage?, ghost v: Option<Validation>,
                     ghost w: Option<Validation>)
      returns (r: bool)
      requires IsChild(a, v) && if b == null then w == None else b.Valid(false) && w == Some(b.value)
      ensures r <==> v == w
      decreases Nodes, 0
    {
      if a == null {
        r := b == null;
      } else {
        r := a.Equal(b);
      }
    }
  }

  // ---- What each case of the field switch does ----

  lemma ValidationSchema(w: Validation, num: int)
    ensures var s := SchemaOf(ValidationMsg(w));
      && (num in s <==> num in VALIDATION_SCALARS || num in VALIDATION_BYTES)
      && (num in VALIDATION_BYTES ==> s[num].BytesKind?)
      && (num in VALIDATION_SCALARS && num !in VALIDATION_BYTES ==> s[num].ScalarKind?)
    ensures Apply(ValidationMsg(w), Unknown) == Ok(ValidationMsg(w))
  {
    DisjointNumbers(num);
    hide EmptyOf;
  }

  lemma DisjointNumbers(num: int)
    ensures num in VALIDATION_BYTES ==> num !in VALIDATION_SCALARS
  {
  }

  lemma ValidationScalar(w: Validation, num: int, v: uint64)
    ensures Apply(ValidationMsg(w), Scalar(num, v)) == Ok(ValidationMsg(ApplyFlag(w, num, v != 0)))
  {
    hide ApplyFlag;
  }

  lemma ValidationText(w: Validation, num: int, p: bytes)
    requires num !in {401, 402, 403}
    ensures Apply(ValidationMsg(w), Chunk(num, p)) == Ok(ValidationMsg(ApplyText(w, num, p)))
  {
    hide Parse, ApplyText;
  }

  lemma ValidationItems(w: Validation, p: bytes)
    ensures var r := MergedChild(w.items, p);
      Apply(ValidationMsg(w), Chunk(401, p))
      == if r.Err? then Err(r.error) else Ok(ValidationMsg(w.(items := Some(r.value))))
  {
    hide Parse;
  }

  lemma ValidationKeys(w: Validation, p: bytes)
    ensures var r := MergedChild(w.keys, p);
      Apply(ValidationMsg(w), Chunk(402, p))
      == if r.Err? then Err(r.error) else Ok(ValidationMsg(w.(keys := Some(r.value))))
  {
    hide Parse;
  }

  lemma ValidationValues(w: Validation, p: bytes)
    ensures var r := MergedChild(w.values, p);
      Apply(ValidationMsg(w), Chunk(403, p))
      == if r.Err? then Err(r.error) else Ok(ValidationMsg(w.(values := Some(r.value))))
  {
    hide Parse;
  }
}
