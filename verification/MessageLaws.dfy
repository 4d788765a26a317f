/** Laws of the codec that hold for every message type: concatenation merges, unknown fields are
    ignored, and what `Marshal` emits is read back. */
module MessageLaws {
  import opened Wrappers
  import opened Varint
  import opened WireSkip
  import opened Fields
  import opened Messages

  // ---- Concatenation merges ----

  /** The base index decides at most which error is reported. */
  lemma {:induction false} ParseBase(m: Message, b: bytes, base: nat, base': nat)
    requires base + |b| < TWO63 && base' + |b| < TWO63
    ensures SameOutcome(Parse(m, b, base), Parse(m, b, base'))
    decreases |b|
  {
    hide NextField, Apply, SchemaOf;
    if b != [] {
      NextFieldBase(SchemaOf(m), b, base, base');
      var f := NextField(SchemaOf(m), b, base);
      if f.Ok? && Apply(m, f.value.token).Ok? {
        var n := f.value.len;
        ParseBase(Apply(m, f.value.token).value, b[n..], base + n, base' + n);
      }
    }
  }

  /** "Last One Wins": once a prefix of the input is decoded into m', the rest decodes as if m' were the
      starting message. Scalars are overwritten, lists appended to, embedded messages merged. */
  lemma {:induction false} ParseConcat(m: Message, a: bytes, c: bytes, base: nat, base': nat)
    requires base + |a| + |c| < TWO63 && base' + |a| + |c| < TWO63
    ensures Parse(m, a, base).Ok? ==> SameOutcome(Parse(m, a + c, base'), Parse(Parse(m, a, base).value, c, 0))
    decreases |a|
  {
    hide NextField, Apply, SchemaOf;
    if a == [] {
      assert a + c == c;
      ParseBase(m, c, base', 0);
    } else if Parse(m, a, base).Ok? {
      NextFieldPrefix(SchemaOf(m), a, c, base, base');
      var f := NextField(SchemaOf(m), a, base).value;
      assert (a + c)[f.len..] == a[f.len..] + c;
      ParseConcat(Apply(m, f.token).value, a[f.len..], c, base + f.len, base' + f.len);
    }
  }

  /** A complete field whose number the message does not know may stand between any two fields, groups
      and all, without changing the outcome. */
  lemma UnknownFieldIgnored(m: Message, a: bytes, f: WireField, c: bytes)
    requires |a| + |Wire(f)| + |c| < TWO63
    requires WellFormed(f) && ReadTag(Wire(f)).Ok? && ReadTag(Wire(f)).value.num !in SchemaOf(m)
    ensures Parse(m, a, 0).Ok? ==> SameOutcome(Parse(m, a + Wire(f) + c, 0), Parse(m, a + c, 0))
  {
    hide Parse, SchemaOf, Wire, WellFormed, ReadTag;
    if Parse(m, a, 0).Ok? {
      var m' := Parse(m, a, 0).value;
      KindSchema(m, m');
      UnknownFieldParsed(m', f);
      ParseConcat(m', Wire(f), c, 0, 0);
      ParseConcat(m, a, Wire(f) + c, 0, 0);
      ParseConcat(m, a, c, 0, 0);
      assert a + Wire(f) + c == a + (Wire(f) + c);
    }
  }

  lemma UnknownFieldParsed(m: Message, f: WireField)
    requires |Wire(f)| < TWO63
    requires WellFormed(f) && ReadTag(Wire(f)).Ok? && ReadTag(Wire(f)).value.num !in SchemaOf(m)
    ensures Parse(m, Wire(f), 0) == Ok(m)
  {
    hide NextField, SchemaOf, Wire, WellFormed, ReadVarint, ToInt32;
    NextFieldOfUnknown(SchemaOf(m), f, 0);
    ParseOneField(m, Wire(f), Unknown);
  }

  lemma KindSchema(m: Message, n: Message)
    requires SameKind(m, n)
    ensures SchemaOf(m) == SchemaOf(n)
  {
  }

  lemma ParseOneField(m: Message, b: bytes, t: Token)
    requires b != [] && NextField(SchemaOf(m), b, 0) == Ok(Field(t, |b|))
    ensures Parse(m, b, 0) == Apply(m, t)
  {
    assert b[|b|..] == [];
  }

  /** Where a singular embedded message is. */
  predicate Singular(m: Message, num: int) {
    match m
    case CriterionMsg(_) => num == 2
    case ListOptionsMsg(_) => num == 2 || num == 3
    case ValidationMsg(_) => num == 401 || num == 402 || num == 403
    case _ => false
  }

  /** At the nested level: two occurrences of a singular embedded message decode like one whose payload
      is the two payloads joined. */
  lemma EmbeddedMerge(m: Message, num: int, x: bytes, y: bytes)
    requires Singular(m, num)
    requires |BytesField(num, x)| + |BytesField(num, y)| + |BytesField(num, x + y)| < TWO63
    ensures Parse(m, BytesField(num, x), 0).Ok? ==>
      SameOutcome(Parse(m, BytesField(num, x) + BytesField(num, y), 0), Parse(m, BytesField(num, x + y), 0))
  {
    hide Parse, BytesField, ApplyBytes, ApplyScalar, Child, Attach, Singular, SchemaOf;
    SingularKnown(m, num);
    ParseBytesField(m, num, x);
    ParseBytesField(m, num, x + y);
    if Parse(m, BytesField(num, x), 0).Err? { return; }
    var start := Child(m, num).value;
    var c := Parse(start, x, 0).value;
    var m' := Attach(m, num, c);
    PutBack(m, num, c);
    KindSchema(m, m');
    ParseBytesField(m', num, y);
    ParseConcat(m, BytesField(num, x), BytesField(num, y), 0, 0);
    BytesFieldLength(num, x + y);
    ParseConcat(start, x, y, 0, 0);
    if Parse(c, y, 0).Ok? {
      PutTwice(m, num, c, Parse(c, y, 0).value);
    }
  }

  lemma SingularKnown(m: Message, num: int)
    requires Singular(m, num)
    ensures 0 < num < 0x2000_0000 && num in SchemaOf(m) && SchemaOf(m)[num].BytesKind? && Child(m, num).Some?
  {
  }

  lemma PutBack(m: Message, num: int, c: Message)
    requires Singular(m, num) && Child(m, num).Some? && SameKind(Child(m, num).value, c)
    ensures Child(Attach(m, num, c), num) == Some(c) && Singular(Attach(m, num, c), num)
  {
  }

  lemma PutTwice(m: Message, num: int, c: Message, d: Message)
    requires Singular(m, num) && Child(m, num).Some? && SameKind(Child(m, num).value, c) && SameKind(c, d)
    requires Child(Attach(m, num, c), num) == Some(c)
    ensures SameKind(Child(m, num).value, d)
    ensures Attach(Attach(m, num, c), num, d) == Attach(m, num, d)
  {
  }

  lemma BytesFieldLength(num: nat, p: bytes)
    ensures |p| < |BytesField(num, p)|
  {
  }

  lemma ParseBytesField(m: Message, num: int, p: bytes)
    requires 0 < num < 0x2000_0000 && num in SchemaOf(m) && SchemaOf(m)[num].BytesKind?
    requires |BytesField(num, p)| < TWO63
    ensures Parse(m, BytesField(num, p), 0) == Apply(m, Chunk(num, p))
  {
    hide NextField, Apply, SchemaOf;
    BytesFieldLength(num, p);
    NextFieldOfBytes(SchemaOf(m), num, p, 0);
    ParseOneField(m, BytesField(num, p), Chunk(num, p));
  }

  lemma ParseScalarField(m: Message, num: int, v: uint64)
    requires 0 < num < 0x2000_0000 && num in SchemaOf(m) && SchemaOf(m)[num].ScalarKind?
    ensures Parse(m, ScalarField(num, v), 0) == Ok(ApplyScalar(m, num, v))
  {
    hide NextField, SchemaOf, ApplyScalar;
    NextFieldOfScalar(SchemaOf(m), num, v, 0);
    ParseOneField(m, ScalarField(num, v), Scalar(num, v));
  }

  /** Last one wins: of two occurrences of a scalar field, or of two cases of a oneof, the later decides. */
  lemma LastScalarWins(m: Message, num: int, later: int, v: uint64, w: uint64)
    requires 0 < num < 0x2000_0000 && num in SchemaOf(m) && SchemaOf(m)[num].ScalarKind?
    requires 0 < later < 0x2000_0000 && later in SchemaOf(m) && SchemaOf(m)[later].ScalarKind?
    requires later == num || (m.ValidationMsg? && {num, later} == {101, 102})
    requires |ScalarField(num, v)| + |ScalarField(later, w)| < TWO63
    ensures Parse(m, ScalarField(num, v) + ScalarField(later, w), 0) == Parse(m, ScalarField(later, w), 0)
  {
    hide ScalarField, NextField, Apply, ApplyScalar;
    ParseScalarField(m, num, v);
    ParseScalarField(m, later, w);
    var m1 := ApplyScalar(m, num, v);
    KindSchema(m, m1);
    ParseScalarField(m1, later, w);
    ParseConcat(m, ScalarField(num, v), ScalarField(later, w), 0, 0);
    OverwritesScalar(m, num, later, v, w);
  }

  lemma OverwritesScalar(m: Message, num: int, later: int, v: uint64, w: uint64)
    requires num in SchemaOf(m) && SchemaOf(m)[num].ScalarKind?
    requires later == num || (m.ValidationMsg? && {num, later} == {101, 102})
    ensures ApplyScalar(ApplyScalar(m, num, v), later, w) == ApplyScalar(m, later, w)
  {
    hide ToInt32;
  }
}
