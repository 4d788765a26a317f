/** The comparison as code: the loops that build the differences, and the comparison of two CRDs version
    by version. */
module SchemaCompare {
  import opened Wrappers
  import opened SchemaDiff

  // ---- Building a diff ----

  method NewSchemaDiff(old': Option<Schema>, new': Option<Schema>) returns (r: Option<SchemaDiff>)
    ensures r == Diff(old', new')
    decreases Rank(old'), OrEmpty(old'), OrEmpty(new'), 1
  {
    hide PropertiesDiff, BranchesDiff;
    var o, n := OrEmpty(old'), OrEmpty(new');
    var typeDiff := None;
    if o.typ != n.typ {
      typeDiff := Some(ValueDiff(o.typ, n.typ));
    }
    var propertiesDiff := NewSchemaObjectDiff(o.properties, n.properties, old', new');
    var itemsDiff := None;
    if o.items.Some? || n.items.Some? {
      itemsDiff := NewSchemaDiff(o.items, n.items);
    }
    var oneOfDiff := NewSchemaArrayDiff(o.oneOf, n.oneOf, old', new', OneOf);
    var anyOfDiff := NewSchemaArrayDiff(o.anyOf, n.anyOf, old', new', AnyOf);
    var allOfDiff := NewSchemaArrayDiff(o.allOf, n.allOf, old', new', AllOf);
    var diff := SchemaDiff(typeDiff, propertiesDiff, itemsDiff, oneOfDiff, anyOfDiff, allOfDiff);
    r := if diff == NO_DIFF then None else Some(diff);
  }

  lemma ModifiedStep(old': Option<Schema>, new': Option<Schema>, which: Combinator, i: nat)
    ensures var o, n := Branches(OrEmpty(old'), which), Branches(OrEmpty(new'), which);
      var rest := ModifiedFrom(old', new', which, i + 1);
      ModifiedFrom(old', new', which, i)
      == if i >= |o| || i >= |n| then []
         else (var d := Diff(Some(o[i]), Some(n[i])); if d.Some? then [d.value] else []) + rest
  {
    hide Diff;
  }

  /** One more common branch looked at. */
  lemma ModifiedGrows(old': Option<Schema>, new': Option<Schema>, which: Combinator, i: nat, modified: seq<SchemaDiff>)
    requires var o, n := Branches(OrEmpty(old'), which), Branches(OrEmpty(new'), which); i < |o| && i < |n|
    ensures var d := Diff(Some(Branches(OrEmpty(old'), which)[i]), Some(Branches(OrEmpty(new'), which)[i]));
      (if d.Some? then modified + [d.value] else modified) + ModifiedFrom(old', new', which, i + 1)
      == modified + ModifiedFrom(old', new', which, i)
  {
    hide Diff, ModifiedFrom;
    ModifiedStep(old', new', which, i);
    var d := Diff(Some(Branches(OrEmpty(old'), which)[i]), Some(Branches(OrEmpty(new'), which)[i]));
    Regroup(modified, if d.Some? then [d.value] else [], ModifiedFrom(old', new', which, i + 1));
    assert modified + [] == modified;
  }

  lemma BranchesBelow(s: Option<Schema>, which: Combinator)
    ensures s.None? ==> Branches(OrEmpty(s), which) == []
    ensures forall i :: 0 <= i < |Branches(OrEmpty(s), which)| ==> Branches(OrEmpty(s), which)[i] < OrEmpty(s)
  {
  }

  lemma ArrayResult(old': Option<Schema>, new': Option<Schema>, which: Combinator, deleted: seq<Schema>,
                    added: seq<Schema>, modified: seq<SchemaDiff>)
    requires var o, n := Branches(OrEmpty(old'), which), Branches(OrEmpty(new'), which);
      && deleted == (if |n| < |o| then o[|n|..] else []) && added == (if |o| < |n| then n[|o|..] else [])
      && modified == ModifiedFrom(old', new', which, 0)
    ensures BranchesDiff(old', new', which)
         == if deleted == [] && added == [] && modified == [] then None else Some(ArrayDiff(deleted, added, modified))
  {
    hide Diff, ModifiedFrom;
  }

  method NewSchemaArrayDiff(old': seq<Schema>, new': seq<Schema>, ghost oldParent: Option<Schema>,
                            ghost newParent: Option<Schema>, ghost which: Combinator) returns (r: Option<ArrayDiff>)
    requires old' == Branches(OrEmpty(oldParent), which) && new' == Branches(OrEmpty(newParent), which)
    ensures r == BranchesDiff(oldParent, newParent, which)
    decreases Rank(oldParent), OrEmpty(oldParent), OrEmpty(newParent), 0
  {
    BranchesBelow(oldParent, which);
    BranchesBelow(newParent, which);
    hide Diff, ModifiedFrom, BranchesDiff, Branches;
    var deleted: seq<Schema>, added: seq<Schema>, modified: seq<SchemaDiff> := [], [], [];
    var n := |old'|;
    var i := 0;
    while i < n
      invariant 0 <= i <= n
      invariant deleted == if |new'| < i then old'[|new'|..i] else []
      invariant modified + ModifiedFrom(oldParent, newParent, which, i) == ModifiedFrom(oldParent, newParent, which, 0)
    {
      if i >= |new'| {
        ModifiedStep(oldParent, newParent, which, i);
        ModifiedStep(oldParent, newParent, which, i + 1);
        deleted := deleted + [old'[i]];
      } else {
        var diff := NewSchemaDiff(Some(old'[i]), Some(new'[i]));
        ModifiedGrows(oldParent, newParent, which, i, modified);
        if diff.Some? {
          modified := modified + [diff.value];
        }
      }
      i := i + 1;
    }
    while i < |new'|
      invariant n <= i && (i <= |new'| || i == n)
      invariant added == if n < |new'| then new'[n..i] else []
    {
      added := added + [new'[i]];
      i := i + 1;
    }
    ModifiedStep(oldParent, newParent, which, n);
    ArrayResult(oldParent, newParent, which, deleted, added, modified);
    r := if |deleted| > 0 || |added| > 0 || |modified| > 0 then Some(ArrayDiff(deleted, added, modified)) else None;
  }

  /** Taking one key out of those still to be visited. */
  lemma Visit<V>(m: map<string, V>, keys: set<string>, key: string)
    requires key in keys
    ensures m - (keys - {key}) == if key in m then (m - keys)[key := m[key]] else m - keys
  {
  }

  lemma AllVisited<V>(m: map<string, V>, keys: set<string>)
    ensures m.Keys <= keys ==> m - keys == map[]
    ensures m - {} == m
    ensures |m| == 0 <==> m == map[]
  {
    if m.Keys <= keys {
      assert forall k :: k !in m - keys;
    }
  }

  lemma PropertyAt(old': Option<Schema>, new': Option<Schema>, key: string)
    ensures var o, n := OrEmpty(old').properties, OrEmpty(new').properties;
      && (key in Without(o, n) <==> key in o && key !in n) && (key in Without(o, n) ==> Without(o, n)[key] == o[key])
      && (key in ModifiedProperties(old', new') <==>
            key in o && key in n && Diff(Some(o[key]), Some(n[key])).Some?)
      && (key in ModifiedProperties(old', new') ==>
            Diff(Some(o[key]), Some(n[key])) == Some(ModifiedProperties(old', new')[key]))
  {
    hide Diff;
  }

  lemma KeysWithin(old': Option<Schema>, new': Option<Schema>)
    ensures Without(OrEmpty(old').properties, OrEmpty(new').properties).Keys <= OrEmpty(old').properties.Keys
    ensures ModifiedProperties(old', new').Keys <= OrEmpty(old').properties.Keys
  {
    hide Diff;
  }

  method NewSchemaObjectDiff(old': map<string, Schema>, new': map<string, Schema>, ghost oldParent: Option<Schema>,
                             ghost newParent: Option<Schema>) returns (r: Option<ObjectDiff>)
    requires old' == OrEmpty(oldParent).properties && new' == OrEmpty(newParent).properties
    ensures r == PropertiesDiff(oldParent, newParent)
    decreases Rank(oldParent), OrEmpty(oldParent), OrEmpty(newParent), 0
  {
    hide Diff, ModifiedProperties, Without;
    ghost var without, changed := Without(old', new'), ModifiedProperties(oldParent, newParent);
    var deleted: map<string, Schema>, modified: map<string, SchemaDiff> := map[], map[];
    var keys := old'.Keys;
    KeysWithin(oldParent, newParent);
    AllVisited(without, keys);
    AllVisited(changed, keys);
    while keys != {}
      invariant keys <= old'.Keys
      invariant deleted == without - keys && modified == changed - keys
      decreases |keys|
    {
      var key :| key in keys;
      Visit(without, keys, key);
      Visit(changed, keys, key);
      PropertyAt(oldParent, newParent, key);
      keys := keys - {key};
      if key !in new' {
        deleted := deleted[key := old'[key]];
      } else {
        var diff := NewSchemaDiff(Some(old'[key]), Some(new'[key]));
        if diff.Some? {
          modified := modified[key := diff.value];
        }
      }
    }
    var added := AddedProperties(old', new');
    AllVisited(deleted, {});
    AllVisited(modified, {});
    AllVisited(added, {});
    r := if |deleted| != 0 || |added| != 0 || |modified| != 0 then Some(ObjectDiff(deleted, added, modified)) else None;
  }

  method AddedProperties(old': map<string, Schema>, new': map<string, Schema>) returns (added: map<string, Schema>)
    ensures added == Without(new', old')
  {
    added := map[];
    var keys := new'.Keys;
    AllVisited(Without(new', old'), keys);
    while keys != {}
      invariant keys <= new'.Keys
      invariant added == Without(new', old') - keys
      decreases |keys|
    {
      var key :| key in keys;
      Visit(Without(new', old'), keys, key);
      keys := keys - {key};
      if key !in old' {
        added := added[key := new'[key]];
      }
    }
    AllVisited(Without(new', old'), {});
  }
}
