/** The recursive comparison of two CRD schemas and what "compatible" means. */
module SchemaDiff {
  import opened Wrappers

  /** A JSON schema as far as compatibility looks at it. Absent maps and lists are empty. */
  datatype Schema = Schema(typ: string, properties: map<string, Schema>, items: Option<Schema>,
                           oneOf: seq<Schema>, anyOf: seq<Schema>, allOf: seq<Schema>)

  const EMPTY := Schema("", map[], None, [], [], [])

  function OrEmpty(s: Option<Schema>): Schema {
    if s.Some? then s.value else EMPTY
  }

  datatype Combinator = OneOf | AnyOf | AllOf

  function Branches(s: Schema, which: Combinator): seq<Schema> {
    match which
    case OneOf => s.oneOf
    case AnyOf => s.anyOf
    case AllOf => s.allOf
  }

  // ---- Differences ----

  datatype ValueDiff = ValueDiff(from: string, to: string)

  datatype ArrayDiff = ArrayDiff(deleted: seq<Schema>, added: seq<Schema>, modified: seq<SchemaDiff>)

  datatype ObjectDiff =
    ObjectDiff(deleted: map<string, Schema>, added: map<string, Schema>, modified: map<string, SchemaDiff>)

  datatype SchemaDiff =
    SchemaDiff(typeDiff: Option<ValueDiff>, propertiesDiff: Option<ObjectDiff>, itemsDiff: Option<SchemaDiff>,
               oneOfDiff: Option<ArrayDiff>, anyOfDiff: Option<ArrayDiff>, allOfDiff: Option<ArrayDiff>)

  const NO_DIFF := SchemaDiff(None, None, None, None, None, None)

  function Rank(s: Option<Schema>): nat { if s.Some? then 1 else 0 }

  /** `newSchemaDiff`; None is nil. */
  function Diff(old': Option<Schema>, new': Option<Schema>): Option<SchemaDiff>
    decreases Rank(old'), OrEmpty(old'), OrEmpty(new'), 1, 0
  {
    var o, n := OrEmpty(old'), OrEmpty(new');
    var d := SchemaDiff(
      if o.typ != n.typ then Some(ValueDiff(o.typ, n.typ)) else None,
      PropertiesDiff(old', new'),
      if o.items.Some? || n.items.Some? then Diff(o.items, n.items) else None,
      BranchesDiff(old', new', OneOf), BranchesDiff(old', new', AnyOf), BranchesDiff(old', new', AllOf));
    if d == NO_DIFF then None else Some(d)
  }

  /** The keys of the first map that the second one lacks. */
  function Without(a: map<string, Schema>, b: map<string, Schema>): map<string, Schema> {
    map k | k in a && k !in b :: a[k]
  }

  /** The differences of the properties that both schemas have. */
  function ModifiedProperties(old': Option<Schema>, new': Option<Schema>): map<string, SchemaDiff>
    decreases Rank(old'), OrEmpty(old'), OrEmpty(new'), 0, 0
  {
    var o, n := OrEmpty(old').properties, OrEmpty(new').properties;
    map k | k in o && k in n && Diff(Some(o[k]), Some(n[k])).Some? :: Diff(Some(o[k]), Some(n[k])).value
  }

  /** `newSchemaObjectDiff` of the properties. */
  function PropertiesDiff(old': Option<Schema>, new': Option<Schema>): Option<ObjectDiff>
    decreases Rank(old'), OrEmpty(old'), OrEmpty(new'), 0, 1
  {
    var o, n := OrEmpty(old').properties, OrEmpty(new').properties;
    var deleted, added, modified := Without(o, n), Without(n, o), ModifiedProperties(old', new');
    if deleted == map[] && added == map[] && modified == map[] then None else Some(ObjectDiff(deleted, added, modified))
  }

  /** The differences of the branches that both lists have, from index i on. */
  function ModifiedFrom(old': Option<Schema>, new': Option<Schema>, which: Combinator, i: nat): seq<SchemaDiff>
    decreases Rank(old'), OrEmpty(old'), OrEmpty(new'), 0, |Branches(OrEmpty(old'), which)| - i
  {
    var o, n := Branches(OrEmpty(old'), which), Branches(OrEmpty(new'), which);
    if i >= |o| || i >= |n| then []
    else
      var d := Diff(Some(o[i]), Some(n[i]));
      (if d.Some? then [d.value] else []) + ModifiedFrom(old', new', which, i + 1)
  }

  /** `newSchemaArrayDiff` of one list of branches. */
  function BranchesDiff(old': Option<Schema>, new': Option<Schema>, which: Combinator): Option<ArrayDiff>
    decreases Rank(old'), OrEmpty(old'), OrEmpty(new'), 0, |Branches(OrEmpty(old'), which)| + 1
  {
    var o, n := Branches(OrEmpty(old'), which), Branches(OrEmpty(new'), which);
    var deleted := if |n| < |o| then o[|n|..] else [];
    var added := if |o| < |n| then n[|o|..] else [];
    var modified := ModifiedFrom(old', new', which, 0);
    if deleted == [] && added == [] && modified == [] then None else Some(ArrayDiff(deleted, added, modified))
  }

  // ---- The compatible methods ----

  predicate Compatible(d: SchemaDiff) {
    && d.typeDiff.None?
    && (d.propertiesDiff.Some? ==>
          && d.propertiesDiff.value.deleted == map[]
          && forall k :: k in d.propertiesDiff.value.modified ==> Compatible(d.propertiesDiff.value.modified[k]))
    && (d.itemsDiff.Some? ==> Compatible(d.itemsDiff.value))
    && (d.oneOfDiff.Some? ==> d.oneOfDiff.value.deleted == []
                              && forall i :: 0 <= i < |d.oneOfDiff.value.modified| ==>
                                   Compatible(d.oneOfDiff.value.modified[i]))
    && (d.anyOfDiff.Some? ==> d.anyOfDiff.value.deleted == []
                              && forall i :: 0 <= i < |d.anyOfDiff.value.modified| ==>
                                   Compatible(d.anyOfDiff.value.modified[i]))
    && (d.allOfDiff.Some? ==> d.allOfDiff.value.deleted == []
                              && forall i :: 0 <= i < |d.allOfDiff.value.modified| ==>
                                   Compatible(d.allOfDiff.value.modified[i]))
  }

  /** The nil diff is compatible. */
  predicate CompatibleOrNil(d: Option<SchemaDiff>) {
    d.Some? ==> Compatible(d.value)
  }

  // ---- Paths ----

  datatype PathStep = Property(name: string) | Items | Branch(which: Combinator, index: nat)

  /** One step into a schema. Absent items read as the empty schema. */
  function Child(s: Schema, step: PathStep): Option<Schema> {
    match step
    case Property(name) => if name in s.properties then Some(s.properties[name]) else None
    case Items => Some(OrEmpty(s.items))
    case Branch(which, i) => if i < |Branches(s, which)| then Some(Branches(s, which)[i]) else None
  }

  function Resolve(s: Schema, path: seq<PathStep>): Option<Schema>
    decreases |path|
  {
    if path == [] then Some(s)
    else if Child(s, path[0]).None? then None
    else Resolve(Child(s, path[0]).value, path[1..])
  }

  /** Every path of o is a path of n, to a schema of the same type. */
  ghost predicate Covers(o: Schema, n: Schema) {
    forall path: seq<PathStep> :: Resolve(o, path).Some? ==>
      Resolve(n, path).Some? && Resolve(n, path).value.typ == Resolve(o, path).value.typ
  }

  lemma CoversAt(o: Schema, n: Schema, path: seq<PathStep>)
    requires Covers(o, n) && Resolve(o, path).Some?
    ensures Resolve(n, path).Some? && Resolve(n, path).value.typ == Resolve(o, path).value.typ
  {
  }

  lemma Reflexive(s: Schema)
    ensures Covers(s, s)
  {
  }

  lemma Transitive(a: Schema, b: Schema, c: Schema)
    requires Covers(a, b) && Covers(b, c)
    ensures Covers(a, c)
  {
    forall path: seq<PathStep> | Resolve(a, path).Some?
      ensures Resolve(c, path).Some? && Resolve(c, path).value.typ == Resolve(a, path).value.typ
    {
      CoversAt(a, b, path);
      CoversAt(b, c, path);
    }
  }

  /** Covering, one step at a time. */
  ghost predicate CoversByStep(o: Schema, n: Schema) {
    && o.typ == n.typ
    && forall step :: Child(o, step).Some? ==>
         Child(n, step).Some? && Covers(Child(o, step).value, Child(n, step).value)
  }

  lemma CoversStepwise(o: Schema, n: Schema)
    ensures Covers(o, n) <==> CoversByStep(o, n)
  {
    hide Child;
    if Covers(o, n) {
      CoversAt(o, n, []);
      forall step | Child(o, step).Some?
        ensures Child(n, step).Some? && Covers(Child(o, step).value, Child(n, step).value)
      {
        CoversAt(o, n, [step]);
        forall path: seq<PathStep> | Resolve(Child(o, step).value, path).Some?
          ensures Resolve(Child(n, step).value, path).Some?
          ensures Resolve(Child(n, step).value, path).value.typ == Resolve(Child(o, step).value, path).value.typ
        {
          assert ([step] + path)[1..] == path;
          CoversAt(o, n, [step] + path);
        }
      }
    }
    if CoversByStep(o, n) {
      forall path: seq<PathStep> | Resolve(o, path).Some?
        ensures Resolve(n, path).Some? && Resolve(n, path).value.typ == Resolve(o, path).value.typ
      {
        if path != [] {
          CoversAt(Child(o, path[0]).value, Child(n, path[0]).value, path[1..]);
        }
      }
    }
  }

  // ---- The diff, one step at a time ----

  lemma {:induction false} ModifiedHas(old': Option<Schema>, new': Option<Schema>, which: Combinator, i: nat)
    ensures var o, n := Branches(OrEmpty(old'), which), Branches(OrEmpty(new'), which);
      var m := ModifiedFrom(old', new', which, i);
      forall k :: i <= k < |o| && k < |n| && Diff(Some(o[k]), Some(n[k])).Some? ==>
        Diff(Some(o[k]), Some(n[k])).value in m
    decreases |Branches(OrEmpty(old'), which)| - i
  {
    hide Diff;
    var o, n := Branches(OrEmpty(old'), which), Branches(OrEmpty(new'), which);
    if i < |o| && i < |n| {
      ModifiedHas(old', new', which, i + 1);
    }
  }

  lemma {:induction false} WhereModified(old': Option<Schema>, new': Option<Schema>, which: Combinator, i: nat,
                                         d: SchemaDiff)
    returns (k: nat)
    requires d in ModifiedFrom(old', new', which, i)
    ensures var o, n := Branches(OrEmpty(old'), which), Branches(OrEmpty(new'), which);
      i <= k < |o| && k < |n| && Diff(Some(o[k]), Some(n[k])) == Some(d)
    decreases |Branches(OrEmpty(old'), which)| - i
  {
    hide Diff;
    var o, n := Branches(OrEmpty(old'), which), Branches(OrEmpty(new'), which);
    if Diff(Some(o[i]), Some(n[i])) == Some(d) {
      k := i;
    } else {
      k := WhereModified(old', new', which, i + 1, d);
    }
  }

  /** A list of branches is compatible: none lost, each changed compatibly. */
  predicate BranchesFit(old': Option<Schema>, new': Option<Schema>, which: Combinator) {
    var o, n := Branches(OrEmpty(old'), which), Branches(OrEmpty(new'), which);
    |o| <= |n| && forall k :: 0 <= k < |o| ==> CompatibleOrNil(Diff(Some(o[k]), Some(n[k])))
  }

  predicate ArrayCompatible(a: Option<ArrayDiff>) {
    a.Some? ==> a.value.deleted == [] && forall i :: 0 <= i < |a.value.modified| ==> Compatible(a.value.modified[i])
  }

  lemma BranchesFitIff(old': Option<Schema>, new': Option<Schema>, which: Combinator)
    ensures ArrayCompatible(BranchesDiff(old', new', which)) <==> BranchesFit(old', new', which)
  {
    hide Diff, Compatible, ModifiedFrom;
    var o, n := Branches(OrEmpty(old'), which), Branches(OrEmpty(new'), which);
    ModifiedHas(old', new', which, 0);
    var m := ModifiedFrom(old', new', which, 0);
    if BranchesFit(old', new', which) {
      forall i | 0 <= i < |m| ensures Compatible(m[i]) {
        var k := WhereModified(old', new', which, 0, m[i]);
      }
    } else if |o| <= |n| {
      var k :| 0 <= k < |o| && !CompatibleOrNil(Diff(Some(o[k]), Some(n[k])));
      assert Diff(Some(o[k]), Some(n[k])).value in m;
    }
  }

  predicate PropertiesFit(old': Option<Schema>, new': Option<Schema>) {
    var o, n := OrEmpty(old').properties, OrEmpty(new').properties;
    forall k :: k in o ==> k in n && CompatibleOrNil(Diff(Some(o[k]), Some(n[k])))
  }

  predicate ObjectCompatible(d: Option<ObjectDiff>) {
    d.Some? ==> d.value.deleted == map[] && forall k :: k in d.value.modified ==> Compatible(d.value.modified[k])
  }

  lemma PropertiesFitIff(old': Option<Schema>, new': Option<Schema>)
    ensures ObjectCompatible(PropertiesDiff(old', new')) <==> PropertiesFit(old', new')
  {
    hide Diff, Compatible;
    var o, n := OrEmpty(old').properties, OrEmpty(new').properties;
    var modified := ModifiedProperties(old', new');
    NothingWithout(o, n);
    if ObjectCompatible(PropertiesDiff(old', new')) {
      forall k | k in o ensures k in n && CompatibleOrNil(Diff(Some(o[k]), Some(n[k]))) {
        if Diff(Some(o[k]), Some(n[k])).Some? { assert k in modified; }
      }
    }
  }

  lemma NothingWithout(a: map<string, Schema>, b: map<string, Schema>)
    ensures Without(a, b) == map[] <==> a.Keys <= b.Keys
  {
    if Without(a, b) == map[] {
      forall k | k in a ensures k in b { assert k !in Without(a, b); }
    }
  }

  /** The compatible methods, one step at a time. */
  predicate Fits(old': Option<Schema>, new': Option<Schema>) {
    var o, n := OrEmpty(old'), OrEmpty(new');
    && o.typ == n.typ && PropertiesFit(old', new')
    && (o.items.Some? || n.items.Some? ==> CompatibleOrNil(Diff(o.items, n.items)))
    && BranchesFit(old', new', OneOf) && BranchesFit(old', new', AnyOf) && BranchesFit(old', new', AllOf)
  }

  lemma CompatibleStepwise(old': Option<Schema>, new': Option<Schema>)
    ensures CompatibleOrNil(Diff(old', new')) <==> Fits(old', new')
  {
    PropertiesFitIff(old', new');
    BranchesFitIff(old', new', OneOf);
    BranchesFitIff(old', new', AnyOf);
    BranchesFitIff(old', new', AllOf);
    hide PropertiesDiff, BranchesDiff, PropertiesFit, BranchesFit;
  }

  // ---- What compatibility means ----

  lemma {:induction false} Meaning(old': Option<Schema>, new': Option<Schema>)
    ensures CompatibleOrNil(Diff(old', new')) <==> Covers(OrEmpty(old'), OrEmpty(new'))
    decreases Rank(old'), OrEmpty(old'), OrEmpty(new')
  {
    hide Diff, Covers, CompatibleOrNil, Compatible;
    var o, n := OrEmpty(old'), OrEmpty(new');
    CompatibleStepwise(old', new');
    CoversStepwise(o, n);
    forall k | k in o.properties && k in n.properties
      ensures CompatibleOrNil(Diff(Some(o.properties[k]), Some(n.properties[k]))) <==>
        Covers(o.properties[k], n.properties[k])
    {
      Meaning(Some(o.properties[k]), Some(n.properties[k]));
    }
    forall which, k | 0 <= k < |Branches(o, which)| && k < |Branches(n, which)|
      ensures CompatibleOrNil(Diff(Some(Branches(o, which)[k]), Some(Branches(n, which)[k])))
          <==> Covers(Branches(o, which)[k], Branches(n, which)[k])
    {
      Meaning(Some(Branches(o, which)[k]), Some(Branches(n, which)[k]));
    }
    if o.items.Some? || n.items.Some? {
      Meaning(o.items, n.items);
    } else {
      Reflexive(EMPTY);
    }
    FitsIsCoversByStep(old', new');
  }

  /** The two stepwise forms agree when they agree on the children. */
  lemma FitsIsCoversByStep(old': Option<Schema>, new': Option<Schema>)
    requires var o, n := OrEmpty(old'), OrEmpty(new');
      && (forall k :: k in o.properties && k in n.properties ==>
            (CompatibleOrNil(Diff(Some(o.properties[k]), Some(n.properties[k]))) <==>
              Covers(o.properties[k], n.properties[k])))
      && (forall which, k :: 0 <= k < |Branches(o, which)| && k < |Branches(n, which)| ==>
            (CompatibleOrNil(Diff(Some(Branches(o, which)[k]), Some(Branches(n, which)[k])))
             <==> Covers(Branches(o, which)[k], Branches(n, which)[k])))
      && (if o.items.Some? || n.items.Some? then
            CompatibleOrNil(Diff(o.items, n.items)) <==> Covers(OrEmpty(o.items), OrEmpty(n.items))
          else Covers(EMPTY, EMPTY))
    ensures Fits(old', new') <==> CoversByStep(OrEmpty(old'), OrEmpty(new'))
  {
    hide Diff, Covers, CompatibleOrNil, Compatible, Branches;
    var o, n := OrEmpty(old'), OrEmpty(new');
    if CoversByStep(o, n) {
      assert Child(o, Items).Some?;
      forall k | k in o.properties ensures k in n.properties && Covers(o.properties[k], n.properties[k]) {
        assert Child(o, Property(k)).Some?;
      }
      forall which ensures BranchesFit(old', new', which) {
        forall k | 0 <= k < |Branches(o, which)|
          ensures k < |Branches(n, which)| && Covers(Branches(o, which)[k], Branches(n, which)[k])
        {
          assert Child(o, Branch(which, k)).Some?;
        }
        if Branches(o, which) != [] {
          assert Child(o, Branch(which, |Branches(o, which)| - 1)).Some?;
        }
      }
    }
    if Fits(old', new') {
      forall step | Child(o, step).Some?
        ensures Child(n, step).Some? && Covers(Child(o, step).value, Child(n, step).value)
      {
        if step.Branch? {
          assert BranchesFit(old', new', step.which) by { match step.which case OneOf => case AnyOf => case AllOf => }
        }
      }
    }
  }

  /** A change is compatible if and only if every path that resolves in the old schema resolves in the new
      one with the same type. */
  lemma CompatibleIffCovers(o: Schema, n: Schema)
    ensures CompatibleOrNil(Diff(Some(o), Some(n))) <==> Covers(o, n)
  {
    Meaning(Some(o), Some(n));
  }

  // ---- When nothing differs ----

  lemma NoBranchesDiff(old': Option<Schema>, new': Option<Schema>, which: Combinator)
    ensures var o, n := Branches(OrEmpty(old'), which), Branches(OrEmpty(new'), which);
      BranchesDiff(old', new', which).None?
      <==> |o| == |n| && forall k :: 0 <= k < |o| ==> Diff(Some(o[k]), Some(n[k])).None?
  {
    hide Diff, ModifiedFrom;
    var o, n := Branches(OrEmpty(old'), which), Branches(OrEmpty(new'), which);
    ModifiedHas(old', new', which, 0);
    var m := ModifiedFrom(old', new', which, 0);
    if m != [] {
      var k := WhereModified(old', new', which, 0, m[0]);
    }
  }

  lemma NoPropertiesDiff(old': Option<Schema>, new': Option<Schema>)
    ensures var o, n := OrEmpty(old').properties, OrEmpty(new').properties;
      PropertiesDiff(old', new').None?
      <==> o.Keys == n.Keys && forall k :: k in o && k in n ==> Diff(Some(o[k]), Some(n[k])).None?
  {
    hide Diff;
    var o, n := OrEmpty(old').properties, OrEmpty(new').properties;
    NothingWithout(o, n);
    NothingWithout(n, o);
    if PropertiesDiff(old', new').None? {
      forall k | k in o && k in n ensures Diff(Some(o[k]), Some(n[k])).None? {
        assert k !in ModifiedProperties(old', new');
      }
    }
  }

  /** Nil diff, one step at a time. */
  predicate Same(old': Option<Schema>, new': Option<Schema>) {
    var o, n := OrEmpty(old'), OrEmpty(new');
    && o.typ == n.typ && o.properties.Keys == n.properties.Keys
    && (forall k :: k in o.properties && k in n.properties ==> Diff(Some(o.properties[k]), Some(n.properties[k])).None?)
    && (o.items.Some? || n.items.Some? ==> Diff(o.items, n.items).None?)
    && (forall which :: |Branches(o, which)| == |Branches(n, which)|)
    && (forall which, k :: 0 <= k < |Branches(o, which)| && k < |Branches(n, which)| ==>
          Diff(Some(Branches(o, which)[k]), Some(Branches(n, which)[k])).None?)
  }

  lemma NoDiffStepwise(old': Option<Schema>, new': Option<Schema>)
    ensures Diff(old', new').None? <==> Same(old', new')
  {
    NoPropertiesDiff(old', new');
    NoBranchesDiff(old', new', OneOf);
    NoBranchesDiff(old', new', AnyOf);
    NoBranchesDiff(old', new', AllOf);
    hide PropertiesDiff, BranchesDiff;
    var o, n := OrEmpty(old'), OrEmpty(new');
    if Diff(old', new').None? {
      forall which ensures |Branches(o, which)| == |Branches(n, which)| {
        match which case OneOf => case AnyOf => case AllOf =>
      }
    }
  }

  lemma {:induction false} BothWays(old': Option<Schema>, new': Option<Schema>)
    ensures Diff(old', new').None?
       <==> Covers(OrEmpty(old'), OrEmpty(new')) && Covers(OrEmpty(new'), OrEmpty(old'))
    decreases Rank(old'), OrEmpty(old'), OrEmpty(new')
  {
    hide Diff, Covers;
    var o, n := OrEmpty(old'), OrEmpty(new');
    NoDiffStepwise(old', new');
    CoversStepwise(o, n);
    CoversStepwise(n, o);
    forall k | k in o.properties && k in n.properties
      ensures Diff(Some(o.properties[k]), Some(n.properties[k])).None?
         <==> Covers(o.properties[k], n.properties[k]) && Covers(n.properties[k], o.properties[k])
    {
      BothWays(Some(o.properties[k]), Some(n.properties[k]));
    }
    forall which, k | 0 <= k < |Branches(o, which)| && k < |Branches(n, which)|
      ensures Diff(Some(Branches(o, which)[k]), Some(Branches(n, which)[k])).None?
         <==> (Covers(Branches(o, which)[k], Branches(n, which)[k])
               && Covers(Branches(n, which)[k], Branches(o, which)[k]))
    {
      BothWays(Some(Branches(o, which)[k]), Some(Branches(n, which)[k]));
    }
    if o.items.Some? || n.items.Some? {
      BothWays(o.items, n.items);
    } else {
      Reflexive(EMPTY);
    }
    SameIsBothByStep(old', new');
  }

  lemma SameIsBothByStep(old': Option<Schema>, new': Option<Schema>)
    requires var o, n := OrEmpty(old'), OrEmpty(new');
      && (forall k :: k in o.properties && k in n.properties ==>
            (Diff(Some(o.properties[k]), Some(n.properties[k])).None?
             <==> Covers(o.properties[k], n.properties[k]) && Covers(n.properties[k], o.properties[k])))
      && (forall which, k :: 0 <= k < |Branches(o, which)| && k < |Branches(n, which)| ==>
            (Diff(Some(Branches(o, which)[k]), Some(Branches(n, which)[k])).None?
             <==> (Covers(Branches(o, which)[k], Branches(n, which)[k])
                   && Covers(Branches(n, which)[k], Branches(o, which)[k]))))
      && (if o.items.Some? || n.items.Some? then
            Diff(o.items, n.items).None?
            <==> Covers(OrEmpty(o.items), OrEmpty(n.items)) && Covers(OrEmpty(n.items), OrEmpty(o.items))
          else Covers(EMPTY, EMPTY))
    ensures Same(old', new') <==>
      CoversByStep(OrEmpty(old'), OrEmpty(new')) && CoversByStep(OrEmpty(new'), OrEmpty(old'))
  {
    hide Diff, Covers, Branches;
    var o, n := OrEmpty(old'), OrEmpty(new');
    if CoversByStep(o, n) && CoversByStep(n, o) {
      assert Child(o, Items).Some? && Child(n, Items).Some?;
      SameKeys(o, n);
      SameKeys(n, o);
      forall k | k in o.properties && k in n.properties
        ensures Covers(o.properties[k], n.properties[k]) && Covers(n.properties[k], o.properties[k])
      {
        assert Child(o, Property(k)).Some? && Child(n, Property(k)).Some?;
      }
      forall which, k | 0 <= k < |Branches(o, which)| && k < |Branches(n, which)|
        ensures Covers(Branches(o, which)[k], Branches(n, which)[k])
          && Covers(Branches(n, which)[k], Branches(o, which)[k])
      {
        assert Child(o, Branch(which, k)).Some? && Child(n, Branch(which, k)).Some?;
      }
    }
  }

  lemma SameKeys(o: Schema, n: Schema)
    requires CoversByStep(o, n)
    ensures o.properties.Keys <= n.properties.Keys
    ensures forall which :: |Branches(o, which)| <= |Branches(n, which)|
  {
    hide Covers, Branches;
    forall k | k in o.properties ensures k in n.properties { assert Child(o, Property(k)).Some?; }
    forall which ensures |Branches(o, which)| <= |Branches(n, which)| {
      if Branches(o, which) != [] { assert Child(o, Branch(which, |Branches(o, which)| - 1)).Some?; }
    }
  }

  /** Compatibility is reflexive and transitive, and holds both ways exactly between schemas without any
      difference. */
  lemma CompatibilityIsAPreorder(a: Schema, b: Schema, c: Schema)
    ensures Diff(Some(a), Some(a)).None?
    ensures CompatibleOrNil(Diff(Some(a), Some(b))) && CompatibleOrNil(Diff(Some(b), Some(c))) ==>
      CompatibleOrNil(Diff(Some(a), Some(c)))
    ensures CompatibleOrNil(Diff(Some(a), Some(b))) && CompatibleOrNil(Diff(Some(b), Some(a)))
      <==> Diff(Some(a), Some(b)).None?
  {
    hide Diff, CompatibleOrNil, Covers;
    Reflexive(a);
    BothWays(Some(a), Some(a));
    BothWays(Some(a), Some(b));
    CompatibleIffCovers(a, b);
    CompatibleIffCovers(b, a);
    CompatibleIffCovers(b, c);
    CompatibleIffCovers(a, c);
    if Covers(a, b) && Covers(b, c) { Transitive(a, b, c); }
  }

  // ---- What a diff says ----

  /** A diff names the two types exactly if they differ, and its other parts are the diffs of the properties, the items
      and the three lists of branches. */
  lemma DiffContents(old': Option<Schema>, new': Option<Schema>)
    requires Diff(old', new').Some?
    ensures var o, n, d := OrEmpty(old'), OrEmpty(new'), Diff(old', new').value;
      && d.typeDiff == (if o.typ == n.typ then None else Some(ValueDiff(o.typ, n.typ)))
      && d.itemsDiff == (if o.items.None? && n.items.None? then None else Diff(o.items, n.items))
      && d.propertiesDiff == PropertiesDiff(old', new') && d.oneOfDiff == BranchesDiff(old', new', OneOf)
      && d.anyOfDiff == BranchesDiff(old', new', AnyOf) && d.allOfDiff == BranchesDiff(old', new', AllOf)
      && (|o.oneOf| != |n.oneOf| ==> d.oneOfDiff.Some?) && (|o.anyOf| != |n.anyOf| ==> d.anyOfDiff.Some?)
      && (|o.allOf| != |n.allOf| ==> d.allOfDiff.Some?)
  {
    NoBranchesDiff(old', new', OneOf);
    NoBranchesDiff(old', new', AnyOf);
    NoBranchesDiff(old', new', AllOf);
    hide PropertiesDiff, BranchesDiff;
  }

  /** A missing schema is compared like one that says nothing. */
  lemma NilReadsAsEmpty(s: Option<Schema>)
    ensures Diff(None, s).Some? <==> Diff(Some(Schema("", map[], None, [], [], [])), s).Some?
    ensures Diff(s, None).Some? <==> Diff(s, Some(Schema("", map[], None, [], [], []))).Some?
    ensures Diff(None, Some(Schema("", map[], None, [], [], []))).None?
  {
    var e := Some(Schema("", map[], None, [], [], []));
    BothWays(None, s);
    BothWays(e, s);
    BothWays(s, None);
    BothWays(s, e);
    BothWays(None, e);
    Reflexive(EMPTY);
    hide Diff, Covers;
  }

  /** What was there and is no longer is in `deleted`, what is new is in `added`, each with its schema; `modified` has
      the diffs of what both have and that differ. */
  lemma PropertiesDiffContents(old': Option<Schema>, new': Option<Schema>)
    requires PropertiesDiff(old', new').Some?
    ensures var o, n, d := OrEmpty(old').properties, OrEmpty(new').properties, PropertiesDiff(old', new').value;
      && (forall k :: k in d.deleted <==> k in o && k !in n) && (forall k :: k in d.deleted ==> d.deleted[k] == o[k])
      && (forall k :: k in d.added <==> k in n && k !in o) && (forall k :: k in d.added ==> d.added[k] == n[k])
      && (forall k :: k in d.modified <==> k in o && k in n && Diff(Some(o[k]), Some(n[k])).Some?)
      && (forall k :: k in d.modified ==> Some(d.modified[k]) == Diff(Some(o[k]), Some(n[k])))
  {
    hide Diff;
  }

  predicate BothDiffer(o: seq<Schema>, n: seq<Schema>, k: nat) {
    k < |o| && k < |n| && Diff(Some(o[k]), Some(n[k])).Some?
  }

  /** The positions from i on, in ascending order, at which two lists have branches that differ, and their diffs. */
  ghost predicate DifferAt(o: seq<Schema>, n: seq<Schema>, i: nat, at: seq<nat>, m: seq<SchemaDiff>) {
    && |at| == |m| && (forall j, k :: 0 <= j < k < |at| ==> at[j] < at[k])
    && (forall k: nat :: k in at <==> i <= k && BothDiffer(o, n, k))
    && (forall j :: 0 <= j < |at| ==> BothDiffer(o, n, at[j]) && Diff(Some(o[at[j]]), Some(n[at[j]])) == Some(m[j]))
  }

  lemma OneMore(o: seq<Schema>, n: seq<Schema>, i: nat, at: seq<nat>, m: seq<SchemaDiff>)
    requires DifferAt(o, n, i + 1, at, m)
    ensures BothDiffer(o, n, i) ==> DifferAt(o, n, i, [i] + at, [Diff(Some(o[i]), Some(n[i])).value] + m)
    ensures !BothDiffer(o, n, i) ==> DifferAt(o, n, i, at, m)
  {
    hide Diff;
    forall j | 0 <= j < |at| ensures at[j] > i { assert at[j] in at; }
    forall k: nat ensures k in [i] + at <==> k == i || k in at { }
    forall j | 0 < j < |at| + 1 ensures ([i] + at)[j] == at[j - 1] { }
  }

  lemma {:induction false} ModifiedAt(old': Option<Schema>, new': Option<Schema>, which: Combinator, i: nat)
    returns (at: seq<nat>)
    ensures DifferAt(Branches(OrEmpty(old'), which), Branches(OrEmpty(new'), which), i, at,
                     ModifiedFrom(old', new', which, i))
    decreases |Branches(OrEmpty(old'), which)| - i
  {
    hide Diff;
    var o, n := Branches(OrEmpty(old'), which), Branches(OrEmpty(new'), which);
    if i >= |o| || i >= |n| {
      at := [];
    } else {
      var rest := ModifiedAt(old', new', which, i + 1);
      hide DifferAt;
      OneMore(o, n, i, rest, ModifiedFrom(old', new', which, i + 1));
      at := if BothDiffer(o, n, i) then [i] + rest else rest;
      assert [] + ModifiedFrom(old', new', which, i + 1) == ModifiedFrom(old', new', which, i + 1);
    }
  }

  /** Branches are compared by position: the longer list's rest is deleted or added, and `modified` has the diffs of
      exactly the common positions that differ, in order. */
  lemma BranchesDiffContents(old': Option<Schema>, new': Option<Schema>, which: Combinator) returns (at: seq<nat>)
    requires BranchesDiff(old', new', which).Some?
    ensures var o, n := Branches(OrEmpty(old'), which), Branches(OrEmpty(new'), which);
      var d := BranchesDiff(old', new', which).value;
      && o == o[..|o| - |d.deleted|] + d.deleted && n == n[..|n| - |d.added|] + d.added
      && |o| - |d.deleted| == |n| - |d.added| && (d.deleted == [] || d.added == [])
      && DifferAt(o, n, 0, at, d.modified)
  {
    hide Diff, ModifiedFrom, DifferAt;
    at := ModifiedAt(old', new', which, 0);
  }
}
