/** What the unfolding produces: how deep it nests, where unknown fields are preserved, and exactly when a
    recursive map makes the generator panic. */
module UnfoldLaws {
  import opened Wrappers
  import opened SchemaUnfold

  // ---- Depth ----

  /** At most n objects lie inside one another. */
  predicate NestsAtMost(s: Schema, n: int)
    decreases s
  {
    match s
    case Object(p) => n >= 1 && forall k :: k in p ==> NestsAtMost(p[k], n - 1)
    case Array(items) => NestsAtMost(items, n)
    case MapOf(v) => NestsAtMost(v, n)
    case Preserve => n >= 0
    case Plain(_) => n >= 0
  }

  lemma {:induction false} NestsMore(s: Schema, n: int, n': int)
    requires NestsAtMost(s, n) && n <= n'
    ensures NestsAtMost(s, n')
    decreases s
  {
    match s
    case Object(p) => forall k | k in p ensures NestsAtMost(p[k], n' - 1) { NestsMore(p[k], n - 1, n' - 1); }
    case Array(items) => NestsMore(items, n, n');
    case MapOf(v) => NestsMore(v, n, n');
    case Preserve =>
    case Plain(_) =>
  }

  lemma WrapNests(f: Field, s: Schema, n: nat)
    requires NestsAtMost(s, n) && Wrap(f, s).Done?
    ensures NestsAtMost(Wrap(f, s).value, n)
  {
    if f.shape.MapEntries? && s.Object? && "value" in s.properties {
      NestsMore(s.properties["value"], n - 1, n);
    }
  }

  lemma {:induction false} FieldNests(g: Graph, m: Name, i: nat, path: set<Name>)
    requires g.Closed() && m in g.messages && i < |g.messages[m]| && FieldSchema(g, m, i, path).Done?
    ensures NestsAtMost(FieldSchema(g, m, i, path).value, |g.messages.Keys - path|)
    decreases |g.messages.Keys - path|, |g.messages[m]| - i, 0
  {
    hide Wrap, NestsAtMost;
    var f := g.messages[m][i];
    var n := |g.messages.Keys - path|;
    if f.typ.Leaf? {
      LeafNests(Plain(f.typ.json), n);
      WrapNests(f, Plain(f.typ.json), n);
    } else if f.typ.Message? && f.typ.name in path {
      LeafNests(Preserve, n);
      WrapNests(f, Preserve, n);
    } else if f.typ.Message? {
      var t := f.typ.name;
      TypesLeft(g, path, t);
      ParseNests(g, t, false, path + {t}, 0, map[]);
      var s := ParseFields(g, t, false, path + {t}, 0, map[]).value;
      NestsMore(s, |g.messages.Keys - (path + {t})| + 1, n);
      WrapNests(f, s, n);
    }
  }

  lemma LeafNests(s: Schema, n: nat)
    requires s.Plain? || s.Preserve?
    ensures NestsAtMost(s, n)
  {
  }

  /** Objects nest at most one deeper than there are types left to enter. */
  lemma {:induction false} ParseNests(g: Graph, m: Name, isRoot: bool, path: set<Name>, i: nat,
                                      properties: map<string, Schema>)
    requires g.Closed() && m in g.messages && i <= |g.messages[m]|
    requires forall k :: k in properties ==> NestsAtMost(properties[k], |g.messages.Keys - path|)
    requires ParseFields(g, m, isRoot, path, i, properties).Done?
    ensures NestsAtMost(ParseFields(g, m, isRoot, path, i, properties).value, |g.messages.Keys - path| + 1)
    decreases |g.messages.Keys - path|, |g.messages[m]| - i, 1
  {
    if i < |g.messages[m]| {
      var f := g.messages[m][i];
      if Skipped(g, f, isRoot) {
        ParseNests(g, m, isRoot, path, i + 1, properties);
      } else {
        FieldNests(g, m, i, path);
        ParseNests(g, m, isRoot, path, i + 1, properties[f.name := FieldSchema(g, m, i, path).value]);
      }
    }
  }

  /** Message nesting is at most the number of types plus one, on any graph. */
  lemma RootNests(g: Graph, root: Name)
    requires g.Closed() && root in g.messages && ParseRoot(g, root).Done?
    ensures NestsAtMost(ParseRoot(g, root).value, |g.messages| + 1)
  {
    ParseNests(g, root, true, {}, 0, map[]);
    assert g.messages.Keys - {} == g.messages.Keys;
  }

  // ---- Where unknown fields are preserved ----

  /** Field names are unique within a message; a map entry has a string key and a value. */
  predicate IsEntry(fields: seq<Field>) {
    && |fields| == 2
    && fields[0] == Field("key", Leaf("string"), Singular)
    && fields[1].name == "value" && fields[1].shape.Singular? && !fields[1].typ.Unsupported?
  }

  predicate UniqueNames(g: Graph) {
    forall m, i, j :: m in g.messages && 0 <= i < j < |g.messages[m]| ==> g.messages[m][i].name != g.messages[m][j].name
  }

  predicate AllSupported(g: Graph) {
    forall m, i :: m in g.messages && 0 <= i < |g.messages[m]| ==> !g.messages[m][i].typ.Unsupported?
  }

  predicate MapsHaveEntries(g: Graph)
    requires g.Closed()
  {
    forall m, i :: m in g.messages && 0 <= i < |g.messages[m]| && g.messages[m][i].shape.MapEntries? ==>
      g.messages[m][i].typ.Message? && IsEntry(g.messages[g.messages[m][i].typ.name])
  }

  predicate WellFormed(g: Graph) {
    g.Closed() && UniqueNames(g) && AllSupported(g) && MapsHaveEntries(g)
  }

  /** A chain of message fields: field i of m, then a field of its type, and so on. */
  predicate IsChain(g: Graph, m: Name, isRoot: bool, chain: seq<nat>)
    requires g.Closed() && m in g.messages
    decreases |chain|
  {
    chain == [] ||
    (&& chain[0] < |g.messages[m]|
     && var f := g.messages[m][chain[0]];
     && f.typ.Message? && !(isRoot && f.typ.name in g.meta) && IsChain(g, f.typ.name, false, chain[1..]))
  }

  /** The types of the fields along a chain. */
  function TypesOf(g: Graph, m: Name, isRoot: bool, chain: seq<nat>): (ts: seq<Name>)
    requires g.Closed() && m in g.messages && IsChain(g, m, isRoot, chain)
    ensures |ts| == |chain| && forall k :: 0 <= k < |ts| ==> ts[k] in g.messages
    decreases |chain|
  {
    if chain == [] then []
    else
      var t := g.messages[m][chain[0]].typ.name;
      [t] + TypesOf(g, t, false, chain[1..])
  }

  /** A schema without the array around it. */
  function Core(s: Schema): Schema {
    if s.Array? then s.items else s
  }

  /** The part of a schema that a chain of fields leads to. A map shows its entry's value directly. */
  function SchemaAt(g: Graph, m: Name, isRoot: bool, chain: seq<nat>, s: Schema): Option<Schema>
    requires g.Closed() && m in g.messages && IsChain(g, m, isRoot, chain)
    decreases |chain|
  {
    if chain == [] then Some(s)
    else
      var f := g.messages[m][chain[0]];
      var c := Core(s);
      if c.Object? && f.name in c.properties then
        SchemaAt(g, f.typ.name, false, chain[1..], c.properties[f.name])
      else if c.MapOf? && f.name == "value" then
        SchemaAt(g, f.typ.name, false, chain[1..], c.value)
      else None
  }

  /** A field that the schema has to show: every field but the metadata fields of the root. */
  predicate ToShow(g: Graph, m: Name, isRoot: bool, i: nat)
    requires m in g.messages && i < |g.messages[m]|
  {
    var f := g.messages[m][i];
    isRoot && f.typ.Message? ==> f.typ.name !in g.meta
  }

  /** The properties collected so far are kept, and field j's schema is there in the end. */
  lemma {:induction false} PropertyOfField(g: Graph, m: Name, isRoot: bool, path: set<Name>, i: nat,
                                           properties: map<string, Schema>, j: nat)
    requires WellFormed(g) && m in g.messages && j < |g.messages[m]| && i <= |g.messages[m]|
    requires ToShow(g, m, isRoot, j)
    requires ParseFields(g, m, isRoot, path, i, properties).Done?
    requires j < i ==>
      && g.messages[m][j].name in properties
      && FieldSchema(g, m, j, path) == Done(properties[g.messages[m][j].name])
    ensures FieldSchema(g, m, j, path).Done?
    ensures var s := ParseFields(g, m, isRoot, path, i, properties).value;
      s.Object? && g.messages[m][j].name in s.properties
      && s.properties[g.messages[m][j].name] == FieldSchema(g, m, j, path).value
    decreases |g.messages[m]| - i
  {
    hide FieldSchema;
    if i < |g.messages[m]| {
      var f := g.messages[m][i];
      if Skipped(g, f, isRoot) {
        PropertyOfField(g, m, isRoot, path, i + 1, properties, j);
      } else {
        PropertyOfField(g, m, isRoot, path, i + 1, properties[f.name := FieldSchema(g, m, i, path).value], j);
      }
    }
  }

  /** Nothing but fields becomes a property, from field i on. */
  lemma {:induction false} OnlyFieldsShow(g: Graph, m: Name, isRoot: bool, path: set<Name>, i: nat,
                                          properties: map<string, Schema>, k: string)
    requires g.Closed() && m in g.messages && i <= |g.messages[m]|
    requires ParseFields(g, m, isRoot, path, i, properties).Done?
    ensures var s := ParseFields(g, m, isRoot, path, i, properties).value;
      && s.Object?
      && (k in s.properties ==>
            || k in properties
            || exists j :: i <= j < |g.messages[m]| && ToShow(g, m, isRoot, j) && g.messages[m][j].name == k)
    decreases |g.messages[m]| - i
  {
    hide FieldSchema;
    if i < |g.messages[m]| {
      var f := g.messages[m][i];
      if Skipped(g, f, isRoot) {
        OnlyFieldsShow(g, m, isRoot, path, i + 1, properties, k);
      } else {
        OnlyFieldsShow(g, m, isRoot, path, i + 1, properties[f.name := FieldSchema(g, m, i, path).value], k);
        assert f.name == k ==> ToShow(g, m, isRoot, i);
      }
    }
  }

  predicate HasField(g: Graph, m: Name, isRoot: bool, k: string)
    requires m in g.messages
  {
    exists j :: 0 <= j < |g.messages[m]| && ToShow(g, m, isRoot, j) && g.messages[m][j].name == k
  }

  /** The properties of an unfolded message are exactly its fields, those of the root without the metadata. */
  lemma PropertiesAreFields(g: Graph, m: Name, isRoot: bool, path: set<Name>)
    requires WellFormed(g) && m in g.messages && ParseMessage(g, m, isRoot, path).Done?
    ensures var s := ParseMessage(g, m, isRoot, path).value;
      s.Object? && forall k :: k in s.properties <==> HasField(g, m, isRoot, k)
  {
    hide FieldSchema, ParseFields, UniqueNames, AllSupported, MapsHaveEntries;
    var s := ParseMessage(g, m, isRoot, path).value;
    OnlyFieldsShow(g, m, isRoot, path, 0, map[], "");
    forall k ensures k in s.properties <==> HasField(g, m, isRoot, k) {
      OnlyFieldsShow(g, m, isRoot, path, 0, map[], k);
      if HasField(g, m, isRoot, k) {
        var j :| 0 <= j < |g.messages[m]| && ToShow(g, m, isRoot, j) && g.messages[m][j].name == k;
        PropertyOfField(g, m, isRoot, path, 0, map[], j);
      }
    }
  }

  /** The root schema has every field of the root that is not metadata, and nothing else. */
  lemma RootHasItsFields(g: Graph, root: Name)
    requires WellFormed(g) && root in g.messages && ParseRoot(g, root).Done?
    ensures var s := ParseRoot(g, root).value;
      s.Object? && forall k :: k in s.properties <==> HasField(g, root, true, k)
  {
    PropertiesAreFields(g, root, true, {});
  }

  /** A field of a scalar type shows that type: as it is, in a list, or as the values of a map. */
  lemma ScalarShows(g: Graph, m: Name, isRoot: bool, path: set<Name>, j: nat)
    requires WellFormed(g) && m in g.messages && j < |g.messages[m]| && ParseMessage(g, m, isRoot, path).Done?
    ensures var f := g.messages[m][j];
      var p := ParseMessage(g, m, isRoot, path).value;
      && (f.typ.Leaf? && f.shape.Singular? ==>
            p.Object? && f.name in p.properties && p.properties[f.name] == Plain(f.typ.json))
      && (f.typ.Leaf? && f.shape.Repeated? ==>
            p.Object? && f.name in p.properties && p.properties[f.name] == Array(Plain(f.typ.json)))
      && (f.shape.MapEntries? && ToShow(g, m, isRoot, j) && g.messages[f.typ.name][1].typ.Leaf? ==>
            p.Object? && f.name in p.properties
            && p.properties[f.name] == MapOf(Plain(g.messages[f.typ.name][1].typ.json)))
  {
    hide UniqueNames, AllSupported, ParseFields;
    var f := g.messages[m][j];
    if ToShow(g, m, isRoot, j) {
      PropertyOfField(g, m, isRoot, path, 0, map[], j);
      if f.shape.MapEntries? {
        MapNotOnPath(g, m, j, path);
        EntryShows(g, f.typ.name, path + {f.typ.name});
      }
    }
  }

  lemma MapNotOnPath(g: Graph, m: Name, j: nat, path: set<Name>)
    requires WellFormed(g) && m in g.messages && j < |g.messages[m]| && g.messages[m][j].shape.MapEntries?
    requires FieldSchema(g, m, j, path).Done?
    ensures g.messages[m][j].typ.name !in path
  {
    hide UniqueNames, AllSupported, ParseFields;
  }

  lemma EntryShows(g: Graph, e: Name, path: set<Name>)
    requires WellFormed(g) && e in g.messages && IsEntry(g.messages[e]) && ParseMessage(g, e, false, path).Done?
    ensures var s := ParseMessage(g, e, false, path).value;
      g.messages[e][1].typ.Leaf? ==>
        s.Object? && "value" in s.properties && s.properties["value"] == Plain(g.messages[e][1].typ.json)
  {
    hide UniqueNames, AllSupported, ParseFields;
    PropertyOfField(g, e, false, path, 0, map[], 1);
  }

  /** All types but the last are entered for the first time. */
  predicate AllNew(ts: seq<Name>, path: set<Name>) {
    forall k :: 0 <= k < |ts| - 1 ==> ts[k] !in path && ts[k] !in ts[..k]
  }

  lemma NewTail(t: Name, rest: seq<Name>, path: set<Name>)
    requires AllNew([t] + rest, path) && rest != []
    ensures t !in path && AllNew(rest, path + {t})
  {
    var ts := [t] + rest;
    assert ts[0] == t;
    forall k | 0 <= k < |rest| - 1 ensures rest[k] !in path + {t} && rest[k] !in rest[..k] {
      assert rest[k] == ts[k + 1] && ts[..k + 1] == [t] + rest[..k];
    }
  }

  /** Along a chain whose enclosing types are all different, the last field preserves unknown fields if its
      type encloses it, and is unfolded otherwise. */
  lemma {:induction false} ChainUnfolds(g: Graph, m: Name, isRoot: bool, path: set<Name>, chain: seq<nat>)
    requires WellFormed(g) && m in g.messages && chain != [] && IsChain(g, m, isRoot, chain)
    requires ParseMessage(g, m, isRoot, path).Done?
    requires AllNew(TypesOf(g, m, isRoot, chain), path)
    ensures var ts := TypesOf(g, m, isRoot, chain);
      var last := ts[|ts| - 1];
      var at := SchemaAt(g, m, isRoot, chain, ParseMessage(g, m, isRoot, path).value);
      at.Some? && (Core(at.value).Preserve? <==> last in path || last in ts[..|ts| - 1])
    decreases |chain|
  {
    hide UniqueNames, AllSupported, FieldSchema, ParseFields;
    var f := g.messages[m][chain[0]];
    var t := f.typ.name;
    var s := ParseMessage(g, m, isRoot, path).value;
    PropertyOfField(g, m, isRoot, path, 0, map[], chain[0]);
    FieldIs(g, m, chain[0], path);
    var ts := TypesOf(g, m, isRoot, chain);
    assert ts[0] == t;
    if |chain| > 1 {
      var rest := TypesOf(g, t, false, chain[1..]);
      NewTail(t, rest, path);
      ChainUnfolds(g, t, false, path + {t}, chain[1..]);
      assert ts[..|ts| - 1] == [t] + rest[..|rest| - 1];
      ThroughWrap(g, f, t, path + {t}, chain[1..]);
    }
  }

  predicate FieldNamed(fields: seq<Field>, k: string) {
    exists j :: 0 <= j < |fields| && fields[j].name == k
  }

  /** The property names are exactly the field names. */
  ghost predicate ShowsAll(s: Schema, fields: seq<Field>) {
    s.Object? && forall k :: k in s.properties <==> FieldNamed(fields, k)
  }

  /** Below the root no field is left out. */
  lemma AllFieldsShow(g: Graph, m: Name)
    requires m in g.messages
    ensures forall k :: HasField(g, m, false, k) <==> FieldNamed(g.messages[m], k)
  {
    forall j: nat | j < |g.messages[m]| ensures ToShow(g, m, false, j) {
    }
  }

  /** The i-th field, if it is unfolded, shows exactly the fields of its type. */
  lemma FieldShowsAll(g: Graph, m: Name, i: nat, path: set<Name>)
    requires WellFormed(g) && m in g.messages && i < |g.messages[m]| && g.messages[m][i].typ.Message?
    requires FieldSchema(g, m, i, path).Done?
    ensures var c := Core(FieldSchema(g, m, i, path).value);
      c.Object? ==> ShowsAll(c, g.messages[g.messages[m][i].typ.name])
  {
    hide FieldSchema, UniqueNames, AllSupported, MapsHaveEntries, ParseFields, HasField, FieldNamed;
    var t := g.messages[m][i].typ.name;
    FieldIs(g, m, i, path);
    if t !in path {
      PropertiesAreFields(g, t, false, path + {t});
      AllFieldsShow(g, t);
    }
  }

  /** Along such a chain an unfolded message shows exactly its fields, all of them. */
  lemma {:induction false} ChainShowsFields(g: Graph, m: Name, isRoot: bool, path: set<Name>, chain: seq<nat>)
    requires WellFormed(g) && m in g.messages && chain != [] && IsChain(g, m, isRoot, chain)
    requires ParseMessage(g, m, isRoot, path).Done?
    requires AllNew(TypesOf(g, m, isRoot, chain), path)
    ensures var ts := TypesOf(g, m, isRoot, chain);
      var at := SchemaAt(g, m, isRoot, chain, ParseMessage(g, m, isRoot, path).value);
      at.Some? && (Core(at.value).Object? ==> ShowsAll(Core(at.value), g.messages[ts[|ts| - 1]]))
    decreases |chain|
  {
    hide UniqueNames, AllSupported, FieldSchema, ParseFields, ShowsAll;
    var f := g.messages[m][chain[0]];
    var t := f.typ.name;
    PropertyOfField(g, m, isRoot, path, 0, map[], chain[0]);
    FieldIs(g, m, chain[0], path);
    FieldShowsAll(g, m, chain[0], path);
    var ts := TypesOf(g, m, isRoot, chain);
    assert ts[0] == t;
    if |chain| > 1 {
      var rest := TypesOf(g, t, false, chain[1..]);
      NewTail(t, rest, path);
      ChainShowsFields(g, t, false, path + {t}, chain[1..]);
      assert ts[..|ts| - 1] == [t] + rest[..|rest| - 1];
      ThroughWrap(g, f, t, path + {t}, chain[1..]);
    }
  }

  /** In the whole schema: a nested message that is unfolded shows exactly its fields. */
  lemma NestedHasItsFields(g: Graph, root: Name, chain: seq<nat>)
    requires WellFormed(g) && root in g.messages && chain != [] && IsChain(g, root, true, chain)
    requires ParseRoot(g, root).Done?
    requires AllNew(TypesOf(g, root, true, chain), {})
    ensures var ts := TypesOf(g, root, true, chain);
      var at := SchemaAt(g, root, true, chain, ParseRoot(g, root).value);
      at.Some? && (Core(at.value).Object? ==> ShowsAll(Core(at.value), g.messages[ts[|ts| - 1]]))
  {
    ChainShowsFields(g, root, true, {}, chain);
  }

  /** What the i-th field's schema is, once it is known not to panic. */
  lemma FieldIs(g: Graph, m: Name, i: nat, path: set<Name>)
    requires WellFormed(g) && m in g.messages && i < |g.messages[m]| && g.messages[m][i].typ.Message?
    requires FieldSchema(g, m, i, path).Done?
    ensures var f := g.messages[m][i];
      var s := FieldSchema(g, m, i, path).value;
      if f.typ.name in path then !f.shape.MapEntries? && Core(s) == Preserve
      else ParseMessage(g, f.typ.name, false, path + {f.typ.name}).Done?
           && Wrap(f, ParseMessage(g, f.typ.name, false, path + {f.typ.name}).value) == Done(s)
           && !Core(s).Preserve?
  {
    hide UniqueNames, AllSupported, MapsHaveEntries, ParseFields;
    var f := g.messages[m][i];
    if f.typ.name !in path { AlwaysObject(g, f.typ.name, false, path + {f.typ.name}, 0, map[]); }
  }

  /** A field shows as an array exactly when it is repeated, and as a map exactly when it is one. */
  lemma FieldShape(g: Graph, m: Name, i: nat, path: set<Name>)
    requires WellFormed(g) && m in g.messages && i < |g.messages[m]|
    ensures var r := FieldSchema(g, m, i, path);
      r.Done? ==> (r.value.Array? <==> g.messages[m][i].shape.Repeated?)
                  && (r.value.MapOf? <==> g.messages[m][i].shape.MapEntries?)
  {
    hide UniqueNames, AllSupported, ParseFields;
    var f := g.messages[m][i];
    if f.typ.Message? && f.typ.name !in path { AlwaysObject(g, f.typ.name, false, path + {f.typ.name}, 0, map[]); }
  }

  lemma {:induction false} AlwaysObject(g: Graph, m: Name, isRoot: bool, path: set<Name>, i: nat,
                                        properties: map<string, Schema>)
    requires g.Closed() && m in g.messages && i <= |g.messages[m]|
    ensures var r := ParseFields(g, m, isRoot, path, i, properties); r.Done? ==> r.value.Object?
    decreases |g.messages[m]| - i
  {
    hide FieldSchema;
    if i < |g.messages[m]| {
      var f := g.messages[m][i];
      if Skipped(g, f, isRoot) { AlwaysObject(g, m, isRoot, path, i + 1, properties); }
      else if FieldSchema(g, m, i, path).Done? {
        AlwaysObject(g, m, isRoot, path, i + 1, properties[f.name := FieldSchema(g, m, i, path).value]);
      }
    }
  }

  /** Going on below a field leads to the same place whether it is singular, repeated or a map. */
  lemma ThroughWrap(g: Graph, f: Field, t: Name, path: set<Name>, chain: seq<nat>)
    requires WellFormed(g) && t in g.messages && chain != [] && IsChain(g, t, false, chain)
    requires f.shape.MapEntries? ==> IsEntry(g.messages[t])
    requires ParseMessage(g, t, false, path).Done? && Wrap(f, ParseMessage(g, t, false, path).value).Done?
    ensures var s := ParseMessage(g, t, false, path).value;
      SchemaAt(g, t, false, chain, Wrap(f, s).value) == SchemaAt(g, t, false, chain, s)
  {
    hide UniqueNames, AllSupported, MapsHaveEntries, FieldSchema, ParseFields;
    AlwaysObject(g, t, false, path, 0, map[]);
    PropertyOfField(g, t, false, path, 0, map[], chain[0]);
  }

  /** In the whole schema: a field preserves unknown fields exactly when its type is the type of a field
      that encloses it. */
  lemma PreservedIffEnclosed(g: Graph, root: Name, chain: seq<nat>)
    requires WellFormed(g) && root in g.messages && chain != [] && IsChain(g, root, true, chain)
    requires ParseRoot(g, root).Done?
    requires AllNew(TypesOf(g, root, true, chain), {})
    ensures var ts := TypesOf(g, root, true, chain);
      var at := SchemaAt(g, root, true, chain, ParseRoot(g, root).value);
      at.Some? && (Core(at.value).Preserve? <==> ts[|ts| - 1] in ts[..|ts| - 1])
  {
    ChainUnfolds(g, root, true, {}, chain);
  }
}
