/** Unfolding a message graph, which may be cyclic, into a finite CRD schema: a field whose message type
    already encloses it becomes an object with unknown fields preserved. */
module SchemaUnfold {
  import opened Wrappers

  type Name = string

  datatype Shape = Singular | Repeated | MapEntries

  /** `Leaf` is a scalar or one of the types with a fixed schema, with its JSON type; `Unsupported` is an
      unsigned scalar. */
  datatype FieldType = Leaf(json: string) | Unsupported | Message(name: Name)

  datatype Field = Field(name: string, typ: FieldType, shape: Shape)

  /** Every message of the descriptor set with its fields; `meta` are the Kubernetes metadata types that
      are skipped in the root message. */
  datatype Graph = Graph(messages: map<Name, seq<Field>>, meta: set<Name>) {
    predicate Closed() {
      forall m, i :: m in messages && 0 <= i < |messages[m]| && messages[m][i].typ.Message? ==>
        messages[m][i].typ.name in messages
    }
  }

  datatype Schema =
    | Object(properties: map<string, Schema>)
    | Preserve
    | Plain(json: string)
    | Array(items: Schema)
    | MapOf(value: Schema)

  /** The `Type` of a schema, as the map branch tests it. */
  function TypeOf(s: Schema): string {
    match s
    case Object(_) => "object"
    case Preserve => "object"
    case Plain(json) => json
    case Array(_) => "array"
    case MapOf(_) => "object"
  }

  datatype Panic = UnsignedField(field: string) | MapKeyNotString(field: string)

  datatype Parsed<T> = Done(value: T) | Panicked(why: Panic)

  /** A missing property reads as the zero schema, of type "". */
  function PropertyType(s: Schema, key: string): string {
    if s.Object? && key in s.properties then TypeOf(s.properties[key]) else ""
  }

  function PropertyOf(s: Schema, key: string): Schema {
    if s.Object? && key in s.properties then s.properties[key] else Plain("")
  }

  /** The property that a field contributes, given the schema of its type. */
  function Wrap(f: Field, s: Schema): Parsed<Schema> {
    match f.shape
    case Singular => Done(s)
    case Repeated => Done(Array(s))
    case MapEntries =>
      if PropertyType(s, "key") != "string" then Panicked(MapKeyNotString(f.name))
      else Done(MapOf(PropertyOf(s, "value")))
  }

  predicate Skipped(g: Graph, f: Field, isRoot: bool) {
    isRoot && f.typ.Message? && f.typ.name in g.meta
  }

  /** `parseMessageFields` from field i on; `path` are the message types being parsed around it. */
  function ParseFields(g: Graph, m: Name, isRoot: bool, path: set<Name>, i: nat, properties: map<string, Schema>)
    : Parsed<Schema>
    requires g.Closed() && m in g.messages && i <= |g.messages[m]|
    decreases |g.messages.Keys - path|, |g.messages[m]| - i, 1
  {
    if i == |g.messages[m]| then Done(Object(properties)) else
    var f := g.messages[m][i];
    if Skipped(g, f, isRoot) then ParseFields(g, m, isRoot, path, i + 1, properties) else
    match FieldSchema(g, m, i, path)
    case Panicked(p) => Panicked(p)
    case Done(s) => ParseFields(g, m, isRoot, path, i + 1, properties[f.name := s])
  }

  /** The property of the i-th field. */
  function FieldSchema(g: Graph, m: Name, i: nat, path: set<Name>): Parsed<Schema>
    requires g.Closed() && m in g.messages && i < |g.messages[m]|
    decreases |g.messages.Keys - path|, |g.messages[m]| - i, 0
  {
    var f := g.messages[m][i];
    match f.typ
    case Leaf(json) => Wrap(f, Plain(json))
    case Unsupported => Panicked(UnsignedField(f.name))
    case Message(t) =>
      if t in path then Wrap(f, Preserve) else
      TypesLeft(g, path, t);
      match ParseFields(g, t, false, path + {t}, 0, map[])
      case Panicked(p) => Panicked(p)
      case Done(s) => Wrap(f, s)
  }

  lemma TypesLeft(g: Graph, path: set<Name>, t: Name)
    requires t in g.messages && t !in path
    ensures |g.messages.Keys - (path + {t})| < |g.messages.Keys - path|
  {
    assert g.messages.Keys - path == (g.messages.Keys - (path + {t})) + {t};
  }

  function ParseMessage(g: Graph, m: Name, isRoot: bool, path: set<Name>): Parsed<Schema>
    requires g.Closed() && m in g.messages
  {
    ParseFields(g, m, isRoot, path, 0, map[])
  }

  /** `parseRootSchema`: the root type itself is not put on the path. */
  function ParseRoot(g: Graph, root: Name): Parsed<Schema>
    requires g.Closed() && root in g.messages
  {
    ParseMessage(g, root, true, {})
  }

  // ---- As code ----

  /** `parsedMessageTypes`, shared by the whole recursion. */
  class PathSet {
    var types: set<Name>

    constructor ()
      ensures types == {}
    {
      types := {};
    }
  }

  method ParseMessageField(g: Graph, m: Name, i: nat, parsed: PathSet) returns (r: Parsed<Schema>)
    requires g.Closed() && m in g.messages && i < |g.messages[m]| && g.messages[m][i].typ.Message?
    modifies parsed
    ensures var t := g.messages[m][i].typ.name;
      r == if t in old(parsed.types) then Done(Preserve) else ParseMessage(g, t, false, old(parsed.types) + {t})
    ensures r.Done? ==> parsed.types == old(parsed.types)
    decreases |g.messages.Keys - parsed.types|, |g.messages[m]| - i
  {
    var t := g.messages[m][i].typ.name;
    if t in parsed.types { return Done(Preserve); }
    TypesLeft(g, parsed.types, t);
    parsed.types := parsed.types + {t};
    r := ParseMessageFields(g, t, false, parsed);
    if r.Done? {
      parsed.types := parsed.types - {t};
    }
  }

  /** Every call leaves the path as it found it. */
  method ParseMessageFields(g: Graph, m: Name, isRoot: bool, parsed: PathSet) returns (r: Parsed<Schema>)
    requires g.Closed() && m in g.messages
    modifies parsed
    ensures r == ParseMessage(g, m, isRoot, old(parsed.types))
    ensures r.Done? ==> parsed.types == old(parsed.types)
    decreases |g.messages.Keys - parsed.types|, |g.messages[m]| + 1
  {
    var properties: map<string, Schema> := map[];
    var fields := g.messages[m];
    var i := 0;
    while i < |fields|
      invariant 0 <= i <= |fields| && parsed.types == old(parsed.types)
      invariant ParseMessage(g, m, isRoot, old(parsed.types))
        == ParseFields(g, m, isRoot, old(parsed.types), i, properties)
    {
      var f := fields[i];
      if Skipped(g, f, isRoot) {
        i := i + 1;
        continue;
      }
      var props;
      if f.typ.Unsupported? {
        return Panicked(UnsignedField(f.name));
      } else if f.typ.Leaf? {
        props := Plain(f.typ.json);
      } else {
        var p := ParseMessageField(g, m, i, parsed);
        if p.Panicked? { return Panicked(p.why); }
        props := p.value;
      }
      if f.shape.Repeated? {
        properties := properties[f.name := Array(props)];
      } else if f.shape.MapEntries? {
        if PropertyType(props, "key") != "string" {
          return Panicked(MapKeyNotString(f.name));
        }
        properties := properties[f.name := MapOf(PropertyOf(props, "value"))];
      } else {
        properties := properties[f.name := props];
      }
      i := i + 1;
    }
    r := Done(Object(properties));
  }
}
